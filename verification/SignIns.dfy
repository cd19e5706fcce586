/** Whose a token is and what it is good for: the user and tenant of a sign-in through all rotations. */
module SignIns {
  import opened Text
  import opened Sessions

  datatype Principal = Principal(user: string, tenant: string)

  /** The sign-ins of a run, in order; a lineage is an index into them. */
  function SignInsOf(ls: seq<Label>): seq<Principal> {
    if ls == [] then [] else OpenedBy(ls[0]) + SignInsOf(ls[1..])
  }

  function OpenedBy(l: Label): seq<Principal> {
    match l
    case Login(user, tenant) => [Principal(user, tenant)]
    case _ => []
  }

  // ----- Requests and tokens stay with their principal -----------------------------------------

  ghost predicate RowsOwn(s: State, owners: seq<Principal>) {
    forall i :: 0 <= i < |s.sessions| ==>
      s.sessions[i].lineage < |owners| && s.sessions[i].user == owners[s.sessions[i].lineage].user
  }

  ghost predicate GrantsOwn(s: State, owners: seq<Principal>) {
    forall r: nat :: GrantedAt(s, r) ==>
      s.requests[r].lineage < |owners|
      && owners[s.requests[r].lineage] == Principal(s.requests[r].user, s.requests[r].tenant)
  }

  ghost predicate CreationsOwn(s: State, owners: seq<Principal>)
    requires RowsOwn(s, owners)
  {
    forall r: nat :: CreatedAt(s, r) ==>
      s.requests[r].sid < |s.sessions|
      && owners[s.sessions[s.requests[r].sid].lineage] == Principal(s.requests[r].user, s.requests[r].tenant)
  }

  ghost predicate TokensOwn(s: State, owners: seq<Principal>)
    requires RowsOwn(s, owners)
  {
    forall t :: t in s.signed ==>
      t.sid < |s.sessions| && owners[s.sessions[t.sid].lineage] == Principal(t.sub, t.tid)
  }

  /** Every row, request and token of a sign-in carries the user and the tenant it was opened with. */
  ghost predicate Carries(s: State, owners: seq<Principal>) {
    && |owners| == s.lineages
    && RowsOwn(s, owners) && GrantsOwn(s, owners) && CreationsOwn(s, owners) && TokensOwn(s, owners)
  }

  /** Rows stay, and a new one continues the request that opened it. */
  lemma {:induction false} RowsAfter(s: State, l: Label)
    ensures var t, n := Step(s, l), |s.sessions|;
            && n <= |t.sessions|
            && (forall i :: 0 <= i < n ==>
                  t.sessions[i].user == s.sessions[i].user && t.sessions[i].lineage == s.sessions[i].lineage)
            && (forall i :: n <= i < |t.sessions| ==>
                  && i == n && l.CreateSession? && GrantedAt(s, l.request)
                  && t.sessions[i].user == s.requests[l.request].user
                  && t.sessions[i].lineage == s.requests[l.request].lineage)
  {
    hide PendingTaken;
    match l {
      case CreateSession(r, _) => assert |Step(s, l).sessions| > |s.sessions| ==> GrantedAt(s, r);
      case _ => assert |Step(s, l).sessions| == |s.sessions|;
    }
  }

  /** Where pending requests come from: sign-ins, exchanges and the requests before them. */
  lemma {:induction false} RequestsAfter(s: State, l: Label)
    ensures var t := Step(s, l);
            && (forall r: nat :: GrantedAt(t, r) ==>
                  || (GrantedAt(s, r) && t.requests[r] == s.requests[r])
                  || (l.Login? && t.requests[r] == Granted(l.user, l.tenant, s.lineages))
                  || (l.Refresh? && l.token in s.signed && l.token.sid < |s.sessions|
                      && t.requests[r] == Granted(l.token.sub, l.token.tid, s.sessions[l.token.sid].lineage)))
            && (forall r: nat :: CreatedAt(t, r) ==>
                  || (CreatedAt(s, r) && t.requests[r] == s.requests[r])
                  || (l.CreateSession? && GrantedAt(s, r) && |t.sessions| == |s.sessions| + 1
                      && t.sessions[|s.sessions|].lineage == s.requests[r].lineage
                      && t.requests[r] == Created(|s.sessions|, s.requests[r].user, s.requests[r].tenant)))
            && (forall k :: k in t.signed ==>
                  || k in s.signed
                  || (l.StoreHash? && CreatedAt(s, l.stored)
                      && var c := s.requests[l.stored]; k == Token(c.sid, c.user, c.tenant, l.exp)))
            && t.lineages == s.lineages + |OpenedBy(l)|
  {
    hide PendingTaken;
  }

  lemma {:induction false} StepRowsOwn(s: State, l: Label, owners: seq<Principal>)
    requires Carries(s, owners)
    ensures RowsOwn(Step(s, l), owners + OpenedBy(l)) && GrantsOwn(Step(s, l), owners + OpenedBy(l))
  {
    hide Step, OpenedBy;
    RowsAfter(s, l);
    RequestsAfter(s, l);
    OpenedByLogin(l);
  }

  lemma {:induction false} OpenedByLogin(l: Label)
    ensures OpenedBy(l) == if l.Login? then [Principal(l.user, l.tenant)] else []
  {
  }

  lemma {:induction false} StepCreationsOwn(s: State, l: Label, owners: seq<Principal>)
    requires Carries(s, owners) && RowsOwn(Step(s, l), owners + OpenedBy(l))
    ensures CreationsOwn(Step(s, l), owners + OpenedBy(l))
  {
    hide Step, OpenedBy, TokensOwn;
    RowsAfter(s, l);
    RequestsAfter(s, l);
  }

  lemma {:induction false} StepTokensOwn(s: State, l: Label, owners: seq<Principal>)
    requires Carries(s, owners) && RowsOwn(Step(s, l), owners + OpenedBy(l))
    ensures TokensOwn(Step(s, l), owners + OpenedBy(l))
  {
    hide Step, OpenedBy, GrantsOwn;
    RowsAfter(s, l);
    RequestsAfter(s, l);
  }

  lemma {:induction false} StepCarries(s: State, l: Label, owners: seq<Principal>)
    requires Carries(s, owners)
    ensures Carries(Step(s, l), owners + OpenedBy(l))
  {
    hide Step, OpenedBy, RowsOwn, GrantsOwn, CreationsOwn, TokensOwn;
    StepRowsOwn(s, l, owners);
    StepCreationsOwn(s, l, owners);
    StepTokensOwn(s, l, owners);
    RequestsAfter(s, l);
  }

  lemma {:induction false} RunCarries(s: State, ls: seq<Label>, owners: seq<Principal>)
    requires Carries(s, owners)
    ensures Carries(Run(s, ls), owners + SignInsOf(ls))
    decreases |ls|
  {
    hide Step, Carries;
    if ls == [] {
      assert owners + [] == owners;
    } else {
      StepCarries(s, ls[0], owners);
      RunCarries(Step(s, ls[0]), ls[1..], owners + OpenedBy(ls[0]));
      assert owners + OpenedBy(ls[0]) + SignInsOf(ls[1..]) == owners + (OpenedBy(ls[0]) + SignInsOf(ls[1..]));
    }
  }

  /**
   Over every run, each session, pending request and signed token carries the user and
   the tenant of the sign-in it goes back to, through every rotation.
   */
  lemma {:induction false} PrincipalsStay(ls: seq<Label>)
    ensures Carries(Run(EMPTY, ls), SignInsOf(ls))
  {
    hide Run, SignInsOf;
    assert [] + SignInsOf(ls) == SignInsOf(ls);
    RunCarries(EMPTY, ls, []);
  }

  // ----- What a refresh does -------------------------------------------------------------------

  /** A token is exchanged exactly when it is signed and unexpired and its session is live, its own and unexpired. */
  lemma {:induction false} RefreshIff(s: State, t: Token, member: bool)
    requires Inv(s)
    ensures var next := Step(s, Refresh(t, member));
            var good := t in s.signed && s.now < t.exp
                        && !s.sessions[t.sid].revoked && s.now <= s.sessions[t.sid].expiresAt;
            && (good && member ==>
                  next.requests == s.requests + [Granted(t.sub, t.tid, s.sessions[t.sid].lineage)])
            && (!good || !member ==> next.requests == s.requests)
            && (good ==> next.sessions == s.sessions[t.sid := s.sessions[t.sid].(revoked := true)])
            && (!good ==> next == s)
  {
    hide OneHolder, LineagesKnown, CreatedOwnPending, ExchangedOnce;
    assert HashesOwn(s);
  }

  /** In any state, reachable or not, a row of another user or with another hash backs no token. */
  lemma {:induction false} ForeignRowRefused(s: State, t: Token, member: bool)
    requires t.sid < |s.sessions|
    requires s.sessions[t.sid].user != t.sub || s.sessions[t.sid].hash != HashOf(t)
    ensures Step(s, Refresh(t, member)) == s
  {
  }

  /** A session is only ever revoked by presenting one of its own tokens, signed and unexpired. */
  lemma {:induction false} RevokedByOwnToken(s: State, l: Label, i: nat)
    requires i < |s.sessions| && !s.sessions[i].revoked
    ensures i < |Step(s, l).sessions|
    ensures Step(s, l).sessions[i].revoked ==>
              || (l.Refresh? && l.token.sid == i && l.token in s.signed && s.now < l.token.exp)
              || (l.Logout? && l.ended.sid == i && l.ended in s.signed && s.now < l.ended.exp)
  {
    hide PendingTaken;
  }

  /** Logging out with a token that verifies revokes its session. */
  lemma {:induction false} LogoutRevokes(s: State, t: Token)
    requires Inv(s)
    ensures var next := Step(s, Logout(t));
            if t in s.signed && s.now < t.exp
            then t.sid < |next.sessions| && next.sessions[t.sid].revoked && next.requests == s.requests
            else next == s
  {
    assert HashesOwn(s);
  }

  /** The transactions of one undisturbed rotation. */
  function Rotate(s: State, t: Token, ttl: int, exp: int): State {
    var r := |s.requests|;
    Step(Step(Step(s, Refresh(t, true)), CreateSession(r, ttl)), StoreHash(r, exp))
  }

  /**
   An undisturbed rotation replaces a usable token by a usable one for the same user,
   tenant and sign-in, and the old one is of no use any more.
   */
  lemma {:induction false} RotationWorks(s: State, t: Token, ttl: nat, exp: int)
    requires Inv(s) && Verified(s, t) && Backed(s, t) && !PendingTaken(s) && s.now < exp
    ensures var after, token := Rotate(s, t, ttl, exp), Token(|s.sessions|, t.sub, t.tid, exp);
            && Verified(after, token) && Backed(after, token)
            && after.sessions[token.sid].lineage == s.sessions[t.sid].lineage
            && t.sid < |after.sessions| && !Backed(after, t) && after.exchanged == s.exchanged + [t]
  {
    var r := |s.requests|;
    var a := Step(s, Refresh(t, true));
    assert a.requests[r] == Granted(t.sub, t.tid, s.sessions[t.sid].lineage);
    assert !PendingTaken(a) by {
      forall i: nat ensures PendingAt(a, i) ==> PendingAt(s, i) {
      }
    }
    var b := Step(a, CreateSession(r, ttl));
    assert b.requests[r] == Created(|s.sessions|, t.sub, t.tid);
    assert b.sessions == a.sessions + [Session(t.sub, Pending, false, s.now + ttl, s.sessions[t.sid].lineage)];
  }
}
