/**
 Sign-in sessions with rotating refresh tokens. Issuing a token pair takes two database
 transactions: one creates the session row with the placeholder hash, the other stores
 the hash of the signed token. A request may die anywhere between its transactions, and
 any number of requests may be in flight.
 */
module Sessions {
  import opened Text

  /** The signed payload of a refresh token; `exp` is its own expiry. */
  datatype Token = Token(sid: nat, sub: string, tid: string, exp: int)

  /** The unique column `refreshTokenHash`: the literal 'pending' or the hash of a token. */
  datatype Hash = Pending | HashOf(token: Token)

  /** `lineage` numbers the sign-in that a session goes back to through its rotations. */
  datatype Session = Session(user: string, hash: Hash, revoked: bool, expiresAt: int, lineage: nat)

  /** A request in flight: allowed to open a session, about to store its token's hash, or over. */
  datatype Request =
    | Granted(user: string, tenant: string, lineage: nat)
    | Created(sid: nat, user: string, tenant: string)
    | Over

  datatype State = State(sessions: seq<Session>, requests: seq<Request>, signed: set<Token>,
                         exchanged: seq<Token>, lineages: nat, now: int)

  const EMPTY := State([], [], {}, [], 0, 0)

  datatype Label =
    | Login(user: string, tenant: string)
    | Refresh(token: Token, member: bool)
    | Logout(ended: Token)
    | CreateSession(request: nat, ttl: int)
    | StoreHash(stored: nat, exp: int)
    | Crash(dead: nat)
    | Tick(time: nat)

  // ----- Transactions ---------------------------------------------------------------------

  /** The token's own signature and expiry. */
  predicate Verified(s: State, t: Token) {
    t in s.signed && s.now < t.exp
  }

  /** The session backs the token: not revoked, the user's own, not expired, and holding the token's hash. */
  predicate Backed(s: State, t: Token) {
    && t.sid < |s.sessions|
    && var row := s.sessions[t.sid];
       !row.revoked && row.user == t.sub && s.now <= row.expiresAt && row.hash == HashOf(t)
  }

  function Revoke(s: State, sid: nat): State
    requires sid < |s.sessions|
  {
    s.(sessions := s.sessions[sid := s.sessions[sid].(revoked := true)])
  }

  predicate PendingAt(s: State, sid: nat) {
    sid < |s.sessions| && s.sessions[sid].hash == Pending
  }

  predicate PendingTaken(s: State) {
    exists sid | 0 <= sid < |s.sessions| :: PendingAt(s, sid)
  }

  function Step(s: State, l: Label): State {
    match l
    case Login(user, tenant) =>
      s.(requests := s.requests + [Granted(user, tenant, s.lineages)], lineages := s.lineages + 1)
    case Refresh(t, member) =>
      if !Verified(s, t) || !Backed(s, t) then s
      else
        var r := Revoke(s, t.sid);
        if !member then r
        else r.(requests := s.requests + [Granted(t.sub, t.tid, s.sessions[t.sid].lineage)],
                exchanged := s.exchanged + [t])
    case Logout(t) => if Verified(s, t) && t.sid < |s.sessions| then Revoke(s, t.sid) else s
    case CreateSession(r, ttl) =>
      if r >= |s.requests| || !s.requests[r].Granted? then s
      else if PendingTaken(s) then s.(requests := s.requests[r := Over])
      else
        var g := s.requests[r];
        s.(sessions := s.sessions + [Session(g.user, Pending, false, s.now + ttl, g.lineage)],
           requests := s.requests[r := Created(|s.sessions|, g.user, g.tenant)])
    case StoreHash(r, exp) =>
      if r >= |s.requests| || !s.requests[r].Created? || s.requests[r].sid >= |s.sessions| then s
      else
        var c := s.requests[r];
        var t := Token(c.sid, c.user, c.tenant, exp);
        s.(sessions := s.sessions[c.sid := s.sessions[c.sid].(hash := HashOf(t))],
           requests := s.requests[r := Over], signed := s.signed + {t})
    case Crash(r) => if r < |s.requests| then s.(requests := s.requests[r := Over]) else s
    case Tick(d) => s.(now := s.now + d)
  }

  function Run(s: State, ls: seq<Label>): State
    decreases |ls|
  {
    if ls == [] then s else Run(Step(s, ls[0]), ls[1..])
  }

  // ----- The invariant --------------------------------------------------------------------

  predicate LiveAt(s: State, sid: nat) {
    sid < |s.sessions| && !s.sessions[sid].revoked
  }

  predicate GrantedAt(s: State, r: nat) {
    r < |s.requests| && s.requests[r].Granted?
  }

  predicate CreatedAt(s: State, r: nat) {
    r < |s.requests| && s.requests[r].Created?
  }

  ghost predicate OneLive(s: State) {
    forall i: nat, j: nat ::
      LiveAt(s, i) && LiveAt(s, j) && s.sessions[i].lineage == s.sessions[j].lineage ==> i == j
  }

  ghost predicate OneGranted(s: State) {
    forall q: nat, r: nat ::
      GrantedAt(s, q) && GrantedAt(s, r) && s.requests[q].lineage == s.requests[r].lineage ==> q == r
  }

  ghost predicate LiveOrGranted(s: State) {
    forall i: nat, r: nat :: LiveAt(s, i) && GrantedAt(s, r) ==> s.sessions[i].lineage != s.requests[r].lineage
  }

  /** Every lineage has at most one holder: an unrevoked session or a request about to open one. */
  ghost predicate OneHolder(s: State) {
    OneLive(s) && LiveOrGranted(s) && OneGranted(s)
  }

  ghost predicate LineagesKnown(s: State) {
    && (forall i: nat :: i < |s.sessions| ==> s.sessions[i].lineage < s.lineages)
    && (forall r: nat :: GrantedAt(s, r) ==> s.requests[r].lineage < s.lineages)
  }

  /** The unique column: one pending row, and one row for each token, its own. */
  ghost predicate HashesOwn(s: State) {
    && (forall i: nat, j: nat :: PendingAt(s, i) && PendingAt(s, j) ==> i == j)
    && (forall i: nat :: i < |s.sessions| && s.sessions[i].hash.HashOf? ==>
          s.sessions[i].hash.token.sid == i && s.sessions[i].hash.token.sub == s.sessions[i].user)
    && (forall t :: t in s.signed ==> t.sid < |s.sessions| && s.sessions[t.sid].hash == HashOf(t))
  }

  /** A request about to store a hash owns a pending, unrevoked row. */
  ghost predicate CreatedOwnPending(s: State) {
    && (forall r: nat :: CreatedAt(s, r) ==>
          PendingAt(s, s.requests[r].sid) && s.sessions[s.requests[r].sid].user == s.requests[r].user)
    && (forall q: nat, r: nat :: CreatedAt(s, q) && CreatedAt(s, r) ==> q == r)
    && (forall i: nat :: PendingAt(s, i) ==> LiveAt(s, i))
  }

  ghost predicate ExchangedOnce(s: State) {
    && (forall k :: 0 <= k < |s.exchanged| ==> s.exchanged[k] in s.signed && !LiveAt(s, s.exchanged[k].sid))
    && (forall j, k :: 0 <= j < k < |s.exchanged| ==> s.exchanged[j] != s.exchanged[k])
  }

  ghost predicate Inv(s: State) {
    OneHolder(s) && LineagesKnown(s) && HashesOwn(s) && CreatedOwnPending(s) && ExchangedOnce(s)
  }

  /** Where the rows and requests after a step come from. */
  lemma {:induction false} StepOrigins(s: State, l: Label)
    requires Inv(s)
    ensures var t := Step(s, l);
            && (forall i: nat :: LiveAt(t, i) ==> LiveAt(s, i) || i == |s.sessions|)
            && (forall r: nat :: GrantedAt(t, r) ==> GrantedAt(s, r) || r == |s.requests|)
            && (forall r: nat :: CreatedAt(t, r) ==> CreatedAt(s, r) || (l.CreateSession? && r == l.request))
            && (forall i: nat :: PendingAt(t, i) ==> PendingAt(s, i) || (l.CreateSession? && i == |s.sessions|))
  {
    hide OneHolder, LineagesKnown, HashesOwn, CreatedOwnPending, ExchangedOnce;
  }

  lemma {:induction false} StepKeepsLive(s: State, l: Label)
    requires Inv(s)
    ensures OneLive(Step(s, l))
  {
    StepOrigins(s, l);
    hide OneGranted, HashesOwn, CreatedOwnPending, ExchangedOnce, PendingTaken, PendingAt, Verified, Backed;
  }

  lemma {:induction false} StepKeepsGranted(s: State, l: Label)
    requires Inv(s)
    ensures OneGranted(Step(s, l))
  {
    StepOrigins(s, l);
    hide OneLive, HashesOwn, CreatedOwnPending, ExchangedOnce, PendingTaken, PendingAt, Verified;
  }

  lemma {:induction false} StepKeepsApart(s: State, l: Label)
    requires Inv(s)
    ensures LiveOrGranted(Step(s, l))
  {
    StepOrigins(s, l);
    hide HashesOwn, CreatedOwnPending, ExchangedOnce, PendingTaken, PendingAt, Verified;
  }

  lemma {:induction false} StepKeepsLineages(s: State, l: Label)
    requires Inv(s)
    ensures LineagesKnown(Step(s, l))
  {
    StepOrigins(s, l);
    hide OneHolder, HashesOwn, CreatedOwnPending, ExchangedOnce, PendingTaken, PendingAt;
  }

  lemma {:induction false} StepKeepsHashes(s: State, l: Label)
    requires Inv(s)
    ensures HashesOwn(Step(s, l))
  {
    StepOrigins(s, l);
    hide OneHolder, LineagesKnown, ExchangedOnce;
    if l.StoreHash? && CreatedAt(s, l.stored) { assert PendingAt(s, s.requests[l.stored].sid); }
  }

  lemma {:induction false} StepKeepsCreated(s: State, l: Label)
    requires Inv(s)
    ensures CreatedOwnPending(Step(s, l))
  {
    StepOrigins(s, l);
    hide OneHolder, LineagesKnown, ExchangedOnce;
    if l.StoreHash? && CreatedAt(s, l.stored) { assert PendingAt(s, s.requests[l.stored].sid); }
  }

  lemma {:induction false} StepKeepsExchanged(s: State, l: Label)
    requires Inv(s)
    ensures ExchangedOnce(Step(s, l))
  {
    StepOrigins(s, l);
    hide OneHolder, LineagesKnown, CreatedOwnPending;
  }

  lemma {:induction false} StepKeepsInv(s: State, l: Label)
    requires Inv(s)
    ensures Inv(Step(s, l))
  {
    StepKeepsLive(s, l);
    StepKeepsGranted(s, l);
    StepKeepsApart(s, l);
    StepKeepsLineages(s, l);
    StepKeepsHashes(s, l);
    StepKeepsCreated(s, l);
    StepKeepsExchanged(s, l);
    hide Step, OneLive, OneGranted, LiveOrGranted, LineagesKnown, HashesOwn, CreatedOwnPending, ExchangedOnce;
  }

  lemma {:induction false} RunKeepsInv(s: State, ls: seq<Label>)
    requires Inv(s)
    ensures Inv(Run(s, ls))
    decreases |ls|
  {
    if ls != [] {
      StepKeepsInv(s, ls[0]);
      hide Step, Inv;
      RunKeepsInv(Step(s, ls[0]), ls[1..]);
    }
  }

  // ----- Safety over whole runs -----------------------------------------------------------

  /** Whatever is delivered, retried or lost, a sign-in has at most one unrevoked session at any time. */
  lemma {:induction false} OneLiveSession(ls: seq<Label>, i: nat, j: nat)
    requires var s := Run(EMPTY, ls);
             LiveAt(s, i) && LiveAt(s, j) && s.sessions[i].lineage == s.sessions[j].lineage
    ensures i == j
  {
    assert Inv(EMPTY);
    RunKeepsInv(EMPTY, ls);
  }

  /** Each refresh token is exchanged for a new grant at most once. */
  lemma {:induction false} TokensExchangedOnce(ls: seq<Label>, j: nat, k: nat)
    requires j < |Run(EMPTY, ls).exchanged| && k < |Run(EMPTY, ls).exchanged|
    requires Run(EMPTY, ls).exchanged[j] == Run(EMPTY, ls).exchanged[k]
    ensures j == k
  {
    assert Inv(EMPTY);
    RunKeepsInv(EMPTY, ls);
  }

  /** Rows are never removed, keep their user and lineage, and stay revoked. */
  ghost predicate Extends(s: State, t: State) {
    && |s.sessions| <= |t.sessions|
    && (forall i :: 0 <= i < |s.sessions| ==>
          && t.sessions[i].user == s.sessions[i].user && t.sessions[i].lineage == s.sessions[i].lineage
          && (s.sessions[i].revoked ==> t.sessions[i].revoked))
    && s.exchanged <= t.exchanged && s.signed <= t.signed && s.now <= t.now
  }

  lemma {:induction false} RevocationIsPermanent(s: State, ls: seq<Label>)
    ensures Extends(s, Run(s, ls))
    decreases |ls|
  {
    if ls != [] {
      assert Extends(s, Step(s, ls[0]));
      hide Step;
      RevocationIsPermanent(Step(s, ls[0]), ls[1..]);
    }
  }

  /** Once a token was exchanged, or its session logged out, presenting it again changes nothing, ever. */
  lemma {:induction false} SpentTokenIsRefused(s: State, l: Label, ls: seq<Label>, t: Token, member: bool)
    requires Verified(s, t) && t.sid < |s.sessions| && (l == Logout(t) || (l.Refresh? && l.token == t && Backed(s, t)))
    ensures var later := Run(Step(s, l), ls);
            Step(later, Refresh(t, member)) == later
  {
    assert Step(s, l).sessions[t.sid].revoked;
    hide Step;
    RevocationIsPermanent(Step(s, l), ls);
    assert !Backed(Run(Step(s, l), ls), t);
    UnbackedIsRefused(Run(Step(s, l), ls), t, member);
  }

  lemma {:induction false} UnbackedIsRefused(s: State, t: Token, member: bool)
    requires !Backed(s, t)
    ensures Step(s, Refresh(t, member)) == s
  {
  }

  // ----- The placeholder hash -------------------------------------------------------------

  /** A pending row whose request is dead. */
  ghost predicate Orphaned(s: State) {
    exists sid :: OrphanAt(s, sid)
  }

  /** The placeholder row belongs to no request. */
  ghost predicate OrphanAt(s: State, sid: nat) {
    PendingAt(s, sid) && forall r: nat :: CreatedAt(s, r) ==> s.requests[r].sid != sid
  }

  lemma {:induction false} OrphanBlocksRun(s: State, ls: seq<Label>, sid: nat)
    requires OrphanAt(s, sid)
    ensures |Run(s, ls).sessions| == |s.sessions| && PendingAt(Run(s, ls), sid)
    decreases |ls|
  {
    if ls != [] {
      var t := Step(s, ls[0]);
      assert PendingTaken(s);
      assert PendingAt(t, sid);
      assert forall r: nat :: CreatedAt(t, r) ==> CreatedAt(s, r) && t.requests[r] == s.requests[r];
      assert |t.sessions| == |s.sessions|;
      hide Step;
      OrphanBlocksRun(t, ls[1..], sid);
    }
  }

  /** The transactions of one undisturbed sign-in, on the next free request. */
  function SignIn(s: State, user: string, tenant: string, ttl: int, exp: int): State {
    var r := |s.requests|;
    Step(Step(Step(s, Login(user, tenant)), CreateSession(r, ttl)), StoreHash(r, exp))
  }

  lemma {:induction false} SignInStored(s: State, user: string, tenant: string, ttl: int, exp: int)
    requires !PendingTaken(s)
    ensures var t := SignIn(s, user, tenant, ttl, exp);
            var token := Token(|s.sessions|, user, tenant, exp);
            && t.sessions == s.sessions + [Session(user, HashOf(token), false, s.now + ttl, s.lineages)]
            && t.signed == s.signed + {token} && t.now == s.now
  {
    var r := |s.requests|;
    var a := Step(s, Login(user, tenant));
    assert a.sessions == s.sessions && a.requests[r] == Granted(user, tenant, s.lineages);
    assert !PendingTaken(a) by {
      forall i: nat ensures PendingAt(a, i) ==> PendingAt(s, i) {
      }
    }
    var b := Step(a, CreateSession(r, ttl));
    assert b.requests[r] == Created(|s.sessions|, user, tenant);
  }

  /**
   A sign-in that runs undisturbed ends with a usable refresh token for a new session if
   and only if no row holds the placeholder when it starts.
   */
  lemma {:induction false} SignInWorks(s: State, user: string, tenant: string, ttl: nat, exp: int)
    requires Inv(s) && s.now < exp
    ensures var t := SignIn(s, user, tenant, ttl, exp);
            var token := Token(|s.sessions|, user, tenant, exp);
            Verified(t, token) && Backed(t, token) <==> !PendingTaken(s)
  {
    if PendingTaken(s) {
      var sid :| 0 <= sid < |s.sessions| && PendingAt(s, sid);
      var a := Step(s, Login(user, tenant));
      assert PendingAt(a, sid);
      assert |SignIn(s, user, tenant, ttl, exp).sessions| == |s.sessions|;
    } else {
      SignInStored(s, user, tenant, ttl, exp);
    }
  }

  /**
   Sign-in can still succeed in some continuation if and only if no placeholder row was
   left behind by a request that died between its two transactions.
   */
  lemma {:induction false} SessionsStopIffOrphaned(s: State)
    requires Inv(s)
    ensures (exists ls :: |Run(s, ls).sessions| > |s.sessions|) <==> !Orphaned(s)
  {
    if Orphaned(s) {
      var sid: nat :| OrphanAt(s, sid);
      forall ls ensures |Run(s, ls).sessions| == |s.sessions| {
        OrphanBlocksRun(s, ls, sid);
      }
    } else if PendingTaken(s) {
      var sid: nat :| sid < |s.sessions| && PendingAt(s, sid);
      assert !OrphanAt(s, sid);
      var r: nat :| CreatedAt(s, r) && s.requests[r].sid == sid;
      var t := Step(s, StoreHash(r, s.now));
      assert !PendingTaken(t) by {
        forall i: nat ensures !PendingAt(t, i) {
          assert PendingAt(t, i) ==> PendingAt(s, i) && i != sid;
        }
      }
      assert |t.sessions| == |s.sessions|;
      SignInRun(t);
      RunCons(s, StoreHash(r, s.now), [Login("", ""), CreateSession(|t.requests|, 0), StoreHash(|t.requests|, 0)]);
    } else {
      SignInRun(s);
    }
  }

  lemma {:induction false} RunCons(s: State, l: Label, ls: seq<Label>)
    ensures Run(s, [l] + ls) == Run(Step(s, l), ls)
  {
    assert ([l] + ls)[1..] == ls;
  }

  lemma {:induction false} SignInRun(s: State)
    requires !PendingTaken(s)
    ensures var r := |s.requests|;
            |Run(s, [Login("", ""), CreateSession(r, 0), StoreHash(r, 0)]).sessions| == |s.sessions| + 1
  {
    SignInStored(s, "", "", 0, 0);
    var r := |s.requests|;
    hide Step;
    var l1, l2, l3 := Login("", ""), CreateSession(r, 0), StoreHash(r, 0);
    assert [l1, l2, l3] == [l1] + ([l2] + ([l3] + []));
    RunCons(s, l1, [l2] + ([l3] + []));
    RunCons(Step(s, l1), l2, [l3] + []);
    RunCons(Step(Step(s, l1), l2), l3, []);
  }

  /** One crash between the two transactions of the first sign-in is enough: no session is ever created again. */
  lemma {:induction false} CrashStopsSignIn(user: string, tenant: string, ttl: int, ls: seq<Label>)
    ensures |Run(Run(EMPTY, [Login(user, tenant), CreateSession(0, ttl), Crash(0)]), ls).sessions| == 1
  {
    var l1, l2, l3 := Login(user, tenant), CreateSession(0, ttl), Crash(0);
    var a := Step(EMPTY, l1);
    assert a.requests == [Granted(user, tenant, 0)];
    var b := Step(a, l2);
    assert !PendingTaken(a) && b.sessions == [Session(user, Pending, false, ttl, 0)];
    var c := Step(b, l3);
    assert c.requests == [Over] && PendingAt(c, 0);
    assert Run(EMPTY, [l1, l2, l3]) == c by {
      hide Step;
      assert [l1, l2, l3] == [l1] + ([l2] + ([l3] + []));
      RunCons(EMPTY, l1, [l2] + ([l3] + []));
      RunCons(a, l2, [l3] + []);
      RunCons(b, l3, []);
    }
    OrphanBlocksRun(c, ls, 0);
  }

  // ----- Sessions are earned --------------------------------------------------------------

  function Grants(requests: seq<Request>): nat {
    if requests == [] then 0
    else Grants(requests[..|requests| - 1]) + if requests[|requests| - 1].Granted? then 1 else 0
  }

  lemma {:induction false} GrantsUpdate(requests: seq<Request>, r: nat, q: Request)
    requires r < |requests|
    ensures Grants(requests[r := q]) + (if requests[r].Granted? then 1 else 0)
            == Grants(requests) + (if q.Granted? then 1 else 0)
  {
    var n := |requests| - 1;
    if r < n {
      GrantsUpdate(requests[..n], r, q);
      assert requests[r := q][..n] == requests[..n][r := q];
    } else {
      assert requests[r := q][..n] == requests[..n];
    }
  }

  lemma {:induction false} GrantsAppend(requests: seq<Request>, q: Request)
    ensures Grants(requests + [q]) == Grants(requests) + if q.Granted? then 1 else 0
  {
    assert (requests + [q])[..|requests|] == requests;
  }

  ghost predicate Earned(s: State) {
    |s.sessions| + Grants(s.requests) <= s.lineages + |s.exchanged|
  }

  lemma {:induction false} StepKeepsEarned(s: State, l: Label)
    requires Earned(s)
    ensures Earned(Step(s, l))
  {
    match l {
      case Login(user, tenant) => GrantsAppend(s.requests, Granted(user, tenant, s.lineages));
      case Refresh(t, _) =>
        if t.sid < |s.sessions| { GrantsAppend(s.requests, Granted(t.sub, t.tid, s.sessions[t.sid].lineage)); }
      case CreateSession(r, _) =>
        if GrantedAt(s, r) {
          GrantsUpdate(s.requests, r, Over);
          GrantsUpdate(s.requests, r, Created(|s.sessions|, s.requests[r].user, s.requests[r].tenant));
        }
      case StoreHash(r, _) => if CreatedAt(s, r) { GrantsUpdate(s.requests, r, Over); }
      case Crash(r) => if r < |s.requests| { GrantsUpdate(s.requests, r, Over); }
      case _ =>
    }
  }

  /** Every session was paid for by its own sign-in or its own exchanged token. */
  lemma {:induction false} SessionsAreEarned(s: State, ls: seq<Label>)
    requires Earned(s)
    ensures Earned(Run(s, ls))
    decreases |ls|
  {
    if ls != [] {
      StepKeepsEarned(s, ls[0]);
      hide Step, Earned;
      SessionsAreEarned(Step(s, ls[0]), ls[1..]);
    }
  }

  // ----- The service ----------------------------------------------------------------------

  class AuthService {
    var sessions: seq<Session>
    var requests: seq<Request>
    var now: int
    var signed: set<Token>
    ghost var exchanged: seq<Token>
    var lineages: nat

    ghost function Snapshot(): State
      reads this
    {
      State(sessions, requests, signed, exchanged, lineages, now)
    }

    ghost predicate Valid()
      reads this
    {
      Inv(Snapshot())
    }

    constructor ()
      ensures Snapshot() == EMPTY && Valid()
    {
      sessions, requests, now, signed, exchanged, lineages := [], [], 0, {}, [], 0;
    }

    /** The credentials were accepted. */
    method Login(user: string, tenant: string) returns (request: nat)
      requires Valid()
      modifies this
      ensures Valid() && Snapshot() == Step(old(Snapshot()), Label.Login(user, tenant))
      ensures request == old(|requests|) && requests[request] == Granted(user, tenant, old(lineages))
    {
      StepKeepsInv(Snapshot(), Label.Login(user, tenant));
      hide Inv;
      request := |requests|;
      requests := requests + [Granted(user, tenant, lineages)];
      lineages := lineages + 1;
    }

    /** Check, revoke, then look the membership up; a missing membership still leaves the session revoked. */
    method Refresh(token: Token, member: bool) returns (request: Option<nat>)
      requires Valid()
      modifies this
      ensures Valid() && Snapshot() == Step(old(Snapshot()), Label.Refresh(token, member))
      ensures request.Some? <==> old(Verified(Snapshot(), token) && Backed(Snapshot(), token)) && member
      ensures request.Some? ==> GrantedAt(Snapshot(), request.value)
      ensures old(Verified(Snapshot(), token) && Backed(Snapshot(), token)) ==> sessions[token.sid].revoked
    {
      StepKeepsInv(Snapshot(), Label.Refresh(token, member));
      hide Inv;
      request := None;
      if token !in signed || now >= token.exp { return; }
      if token.sid >= |sessions| { return; }
      var session := sessions[token.sid];
      if session.revoked || session.user != token.sub || session.expiresAt < now { return; }
      if session.hash != HashOf(token) { return; }
      sessions := sessions[token.sid := session.(revoked := true)];
      if !member { return; }
      request := Some(|requests|);
      requests := requests + [Granted(token.sub, token.tid, session.lineage)];
      exchanged := exchanged + [token];
    }

    method Logout(token: Token)
      requires Valid()
      modifies this
      ensures Valid() && Snapshot() == Step(old(Snapshot()), Label.Logout(token))
    {
      StepKeepsInv(Snapshot(), Label.Logout(token));
      hide Inv;
      if token in signed && now < token.exp && token.sid < |sessions| {
        sessions := sessions[token.sid := sessions[token.sid].(revoked := true)];
      }
    }

    /** Whether some row holds the placeholder. */
    method AnyPending() returns (found: bool)
      ensures found == PendingTaken(Snapshot())
    {
      found := false;
      var i := 0;
      while i < |sessions|
        invariant 0 <= i <= |sessions|
        invariant found <==> exists sid: nat :: sid < i && PendingAt(Snapshot(), sid)
      {
        assert PendingAt(Snapshot(), i) <==> sessions[i].hash == Pending;
        if sessions[i].hash == Pending { found := true; }
        i := i + 1;
      }
    }

    /** The first transaction of issuing; a second placeholder violates the unique column. */
    method Create(request: nat, ttl: int) returns (ok: bool)
      requires Valid() && GrantedAt(Snapshot(), request)
      modifies this
      ensures Valid() && Snapshot() == Step(old(Snapshot()), CreateSession(request, ttl))
      ensures ok == !old(PendingTaken(Snapshot())) && (ok ==> CreatedAt(Snapshot(), request))
    {
      StepKeepsInv(Snapshot(), CreateSession(request, ttl));
      hide Inv;
      var taken := AnyPending();
      ok := !taken;
      if !ok {
        requests := requests[request := Over];
        return;
      }
      var g := requests[request];
      requests := requests[request := Created(|sessions|, g.user, g.tenant)];
      sessions := sessions + [Session(g.user, Pending, false, now + ttl, g.lineage)];
    }

    /** Sign the refresh token and store its hash. */
    method Store(request: nat, exp: int) returns (token: Token)
      requires Valid() && CreatedAt(Snapshot(), request)
      modifies this
      ensures Valid() && Snapshot() == Step(old(Snapshot()), StoreHash(request, exp))
      ensures token in signed && sessions[token.sid].hash == HashOf(token) && !sessions[token.sid].revoked
    {
      StepKeepsInv(Snapshot(), StoreHash(request, exp));
      var c := requests[request];
      assert PendingAt(Snapshot(), c.sid);
      token := Token(c.sid, c.user, c.tenant, exp);
      sessions := sessions[c.sid := sessions[c.sid].(hash := HashOf(token))];
      requests := requests[request := Over];
      signed := signed + {token};
    }

    /** Both transactions of issuing, undisturbed. */
    method IssueTokens(request: nat, ttl: int, exp: int) returns (token: Option<Token>)
      requires Valid() && GrantedAt(Snapshot(), request)
      modifies this
      ensures Valid()
      ensures Snapshot() == if token.Some? then
                              Step(Step(old(Snapshot()), CreateSession(request, ttl)), StoreHash(request, exp))
                            else Step(old(Snapshot()), CreateSession(request, ttl))
      ensures token.Some? <==> !old(PendingTaken(Snapshot()))
    {
      token := None;
      var ok := Create(request, ttl);
      if ok {
        var t := Store(request, exp);
        token := Some(t);
      }
    }
  }
}
