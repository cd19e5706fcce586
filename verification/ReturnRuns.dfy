/**
 How often a return is restocked over a whole run. A refund or decision call checks the
 status of the return in one step and writes in a later one, with any steps in between.
 */
module ReturnRuns {
  import opened Text
  import opened Stock
  import opened Totals
  import opened Commerce

  // ----- Positions in a run -----------------------------------------------------------

  /** A run with the states it goes through, the first before all steps and the last after them. */
  datatype History = History(ls: seq<Label>, at: seq<Db>)

  predicate Shaped(h: History) {
    |h.at| == |h.ls| + 1
  }

  predicate Follows(h: History, k: nat)
    requires Shaped(h) && k < |h.ls|
  {
    h.at[k + 1] == Step(h.at[k], h.ls[k])
  }

  ghost predicate Genuine(h: History) {
    Shaped(h) && h.at[0] == EMPTY && forall k: nat :: k < |h.ls| ==> Follows(h, k)
  }

  lemma {:induction false} RunSnoc(db: Db, ls: seq<Label>, l: Label)
    ensures Run(db, ls + [l]) == Step(Run(db, ls), l)
    decreases |ls|
  {
    hide Step;
    if ls == [] {
      assert ls + [l] == [l] && [l][1..] == [];
    } else {
      assert (ls + [l])[1..] == ls[1..] + [l];
      RunSnoc(Step(db, ls[0]), ls[1..], l);
    }
  }

  /** The states of a history are those of its run. */
  lemma {:induction false} StateAt(h: History, k: nat)
    requires Genuine(h) && k <= |h.ls|
    ensures h.at[k] == Run(EMPTY, h.ls[..k])
  {
    if k > 0 {
      StateAt(h, k - 1);
      assert Follows(h, k - 1);
      assert h.ls[..k] == h.ls[..k - 1] + [h.ls[k - 1]];
      hide Step, Run;
      RunSnoc(EMPTY, h.ls[..k - 1], h.ls[k - 1]);
    }
  }

  /** Every run has a history. */
  lemma {:induction false} HistoryOf(ls: seq<Label>) returns (h: History)
    ensures Genuine(h) && h.ls == ls
  {
    h := History(ls, seq(|ls| + 1, k requires 0 <= k <= |ls| => Run(EMPTY, ls[..k])));
    assert h.at[0] == EMPTY;
    forall k: nat | k < |ls| ensures Follows(h, k) {
      assert ls[..k + 1] == ls[..k] + [ls[k]];
      RunSnoc(EMPTY, ls[..k], ls[k]);
      hide Step, Run;
    }
  }

  /** Step p is the check of call c, and it passed. */
  predicate Opens(h: History, p: nat, c: nat)
    requires Shaped(h)
  {
    p < |h.ls| && |h.at[p].calls| == c < |h.at[p + 1].calls|
  }

  /** Step k is the write of a refund call on the return, and it commits. */
  predicate RestocksAt(h: History, k: nat, id: string)
    requires Shaped(h)
  {
    k < |h.ls| && CommitsRefund(h.at[k], h.ls[k], id)
  }

  predicate CommitsRefund(db: Db, l: Label, id: string) {
    l.FinishRefund? && RefundPending(db, l.refund) && db.calls[l.refund].id == id
    && Targeted(db, l.refund, l.targets) && !WriteFails(db, l.refund, l.returnStripeId)
  }

  predicate IsClosed(db: Db, id: string) {
    id in db.rmas && Closed(db.rmas[id].status)
  }

  /** Step d is the write of an approval that finds the return refunded or rejected. */
  predicate ReopensAt(h: History, d: nat, id: string)
    requires Shaped(h)
  {
    d < |h.ls| && Approves(h.at[d], h.ls[d], id) && IsClosed(h.at[d], id)
  }

  predicate Approves(db: Db, l: Label, id: string) {
    l.FinishDecision? && DecisionPending(db, l.decision) && db.calls[l.decision] == DecisionCall(id, true)
  }

  // ----- What one step does to calls and statuses ----------------------------------------

  /** A call that is opened now passed its check. */
  predicate Checked(db: Db, c: Call) {
    match c
    case RefundCall(id, _) => RefundAllowed(db, id)
    case DecisionCall(id, approve) => DecisionAllowed(db, id, approve)
    case Ended => false
  }

  /** Calls are opened one at a time, by a check that passes, and never change except to end. */
  predicate CallsMove(db: Db, l: Label, next: Db) {
    && |db.calls| <= |next.calls| <= |db.calls| + 1
    && (forall c :: 0 <= c < |db.calls| ==> next.calls[c] == db.calls[c] || next.calls[c] == Ended)
    && (|next.calls| > |db.calls| ==> Checked(db, next.calls[|db.calls|]) && !l.FinishRefund?)
  }

  /** A refund closes its return, and a closed one stays so until an approval is written over it. */
  ghost predicate StatusMoves(db: Db, l: Label, next: Db) {
    forall id :: IsClosed(db, id) || CommitsRefund(db, l, id) ==> IsClosed(next, id) || Approves(db, l, id)
  }

  ghost predicate Tracks(h: History) {
    && Shaped(h) && h.at[0].calls == []
    && (forall k: nat :: k < |h.ls| ==> CallsMove(h.at[k], h.ls[k], h.at[k + 1]))
    && (forall k: nat :: k < |h.ls| ==> StatusMoves(h.at[k], h.ls[k], h.at[k + 1]))
  }

  lemma {:induction false} StepCalls(db: Db, l: Label)
    ensures CallsMove(db, l, Step(db, l))
  {
    hide SellLines, Restock, ReadsOk, TargetsOk, Create, Adjust, AddRefunds, Total, Amount, UpsertPaid, UpsertFailed,
         RefundExists, IntentTaken, ConversionTaken, ConvertCart, FindPayment, RefundAllowed, DecisionAllowed;
  }

  lemma {:induction false} StepReopens(db: Db, l: Label)
    ensures StatusMoves(db, l, Step(db, l))
  {
    hide SellLines, Restock, ReadsOk, TargetsOk, Create, Adjust, AddRefunds, Total, Amount, UpsertPaid, UpsertFailed,
         RefundExists, IntentTaken, ConversionTaken, ConvertCart, FindPayment;
  }

  lemma {:induction false} GenuineTracks(h: History)
    requires Genuine(h)
    ensures Tracks(h)
  {
    hide Step, CallsMove, StatusMoves;
    forall k: nat | k < |h.ls| ensures CallsMove(h.at[k], h.ls[k], h.at[k + 1]) {
      assert Follows(h, k);
      StepCalls(h.at[k], h.ls[k]);
    }
    forall k: nat | k < |h.ls| ensures StatusMoves(h.at[k], h.ls[k], h.at[k + 1]) {
      assert Follows(h, k);
      StepReopens(h.at[k], h.ls[k]);
    }
  }

  // ----- Stretches of a run -------------------------------------------------------------

  lemma {:induction false} CallsKept(h: History, p: nat, k: nat, c: nat)
    requires Tracks(h) && p <= k <= |h.ls| && c < |h.at[p].calls|
    ensures c < |h.at[k].calls| && (h.at[k].calls[c] == h.at[p].calls[c] || h.at[k].calls[c] == Ended)
    decreases k - p
  {
    if p < k {
      CallsKept(h, p, k - 1, c);
      assert CallsMove(h.at[k - 1], h.ls[k - 1], h.at[k]);
    }
  }

  /** Every call was opened by an earlier step. */
  lemma {:induction false} Opened(h: History, k: nat, c: nat) returns (p: nat)
    requires Tracks(h) && k <= |h.ls| && c < |h.at[k].calls|
    ensures p < k && Opens(h, p, c)
    decreases k
  {
    assert CallsMove(h.at[k - 1], h.ls[k - 1], h.at[k]);
    if c < |h.at[k - 1].calls| {
      p := Opened(h, k - 1, c);
    } else {
      p := k - 1;
    }
  }

  /** A call that is still pending passed its check in the state where it was opened. */
  lemma {:induction false} PassedCheck(h: History, p: nat, k: nat, c: nat)
    requires Tracks(h) && p < k <= |h.ls| && Opens(h, p, c)
    ensures c < |h.at[k].calls| && (h.at[k].calls[c] == Ended || Checked(h.at[p], h.at[k].calls[c]))
  {
    assert CallsMove(h.at[p], h.ls[p], h.at[p + 1]);
    hide Checked;
    CallsKept(h, p + 1, k, c);
  }

  /** Between a closed and an open status there is a first step that reopens the return. */
  lemma {:induction false} FirstReopening(h: History, a: nat, b: nat, id: string) returns (d: nat)
    requires Tracks(h) && a <= b <= |h.ls| && IsClosed(h.at[a], id) && !IsClosed(h.at[b], id)
    ensures a <= d < b && ReopensAt(h, d, id)
    ensures forall m :: a <= m <= d ==> IsClosed(h.at[m], id)
    decreases b - a
  {
    assert StatusMoves(h.at[a], h.ls[a], h.at[a + 1]);
    hide IsClosed, Approves;
    if IsClosed(h.at[a + 1], id) {
      d := FirstReopening(h, a + 1, b, id);
    } else {
      d := a;
    }
  }

  // ----- When a return is restocked twice ---------------------------------------------------

  ghost predicate RestockedTwice(h: History, id: string)
    requires Shaped(h)
  {
    exists j: nat, k: nat :: j < k && RestocksAt(h, j, id) && RestocksAt(h, k, id)
  }

  /** The refund written at k was checked at p, before the refund written at q. */
  predicate OvertakenRefund(h: History, id: string, p: nat, q: nat, k: nat)
    requires Shaped(h)
  {
    p < q < k && RestocksAt(h, q, id) && RestocksAt(h, k, id) && Opens(h, p, h.ls[k].refund)
  }

  ghost predicate RefundOvertaken(h: History, id: string)
    requires Shaped(h)
  {
    exists p: nat, q: nat, k: nat :: OvertakenRefund(h, id, p, q, k)
  }

  /**
   The approval written at d was checked at p, before the refund written at q that it
   overwrites; the refund written at k was checked after that.
   */
  predicate OvertakenApproval(h: History, id: string, p: nat, q: nat, d: nat, r: nat, k: nat)
    requires Shaped(h)
  {
    && p < q < d < r < k && RestocksAt(h, q, id) && ReopensAt(h, d, id) && RestocksAt(h, k, id)
    && Opens(h, p, h.ls[d].decision) && Opens(h, r, h.ls[k].refund)
  }

  ghost predicate ApprovalOvertaken(h: History, id: string)
    requires Shaped(h)
  {
    exists p: nat, q: nat, d: nat, r: nat, k: nat :: OvertakenApproval(h, id, p, q, d, r, k)
  }

  /** Of two restocks, the second was overtaken itself or follows an approval that was. */
  lemma {:induction false} SecondRestock(h: History, id: string, q: nat, k: nat)
    requires Tracks(h) && q < k && RestocksAt(h, q, id) && RestocksAt(h, k, id)
    ensures RefundOvertaken(h, id) || ApprovalOvertaken(h, id)
  {
    assert CallsMove(h.at[q], h.ls[q], h.at[q + 1]);
    var c := h.ls[k].refund;
    var r := Opened(h, k, c);
    if q < r {
      assert StatusMoves(h.at[q], h.ls[q], h.at[q + 1]);
      PassedCheck(h, r, k, c);
      var d := FirstReopening(h, q + 1, r, id);
      var p := Opened(h, d, h.ls[d].decision);
      PassedCheck(h, p, d, h.ls[d].decision);
      assert !IsClosed(h.at[p], id);
      assert OvertakenApproval(h, id, p, q, d, r, k);
    } else {
      assert OvertakenRefund(h, id, r, q, k);
    }
  }

  /**
   A return is restocked more than once if and only if a refund was written whose check
   came before another refund's write, or an approval whose check came before a refund's
   write was written over it and a later refund call passed its check and was written.
   */
  lemma {:induction false} TwiceIffOvertaken(h: History, id: string)
    requires Genuine(h)
    ensures RestockedTwice(h, id) <==> RefundOvertaken(h, id) || ApprovalOvertaken(h, id)
  {
    GenuineTracks(h);
    hide Genuine;
    if RestockedTwice(h, id) {
      var q: nat, k: nat :| q < k && RestocksAt(h, q, id) && RestocksAt(h, k, id);
      SecondRestock(h, id, q, k);
    }
    hide RestocksAt, ReopensAt, Opens;
  }

  /** Every write of a pending call directly follows the call's check. */
  ghost predicate WholeCalls(h: History)
    requires Shaped(h)
  {
    && (forall k: nat :: k < |h.ls| && h.ls[k].FinishRefund? && RefundPending(h.at[k], h.ls[k].refund) ==>
          k > 0 && Opens(h, k - 1, h.ls[k].refund))
    && (forall k: nat :: k < |h.ls| && h.ls[k].FinishDecision? && DecisionPending(h.at[k], h.ls[k].decision) ==>
          k > 0 && Opens(h, k - 1, h.ls[k].decision))
  }

  lemma {:induction false} OpensOnce(h: History, p: nat, q: nat, c: nat)
    requires Tracks(h) && Opens(h, p, c) && Opens(h, q, c)
    ensures p == q
  {
    if p < q {
      CallsKept(h, p + 1, q, c);
    } else if q < p {
      CallsKept(h, q + 1, p, c);
    }
  }

  lemma {:induction false} WholeRefundNotOvertaken(h: History, id: string, p: nat, q: nat, k: nat)
    requires Tracks(h) && WholeCalls(h)
    ensures !OvertakenRefund(h, id, p, q, k)
  {
    assert Shaped(h);
    hide Tracks, Targeted, WriteFails;
    if OvertakenRefund(h, id, p, q, k) {
      OpensOnce(h, p, k - 1, h.ls[k].refund);
    }
  }

  lemma {:induction false} WholeApprovalNotOvertaken(h: History, id: string, p: nat, q: nat, d: nat, r: nat, k: nat)
    requires Tracks(h) && WholeCalls(h)
    ensures !OvertakenApproval(h, id, p, q, d, r, k)
  {
    assert Shaped(h);
    hide Tracks, RestocksAt, IsClosed;
    if OvertakenApproval(h, id, p, q, d, r, k) {
      OpensOnce(h, p, d - 1, h.ls[d].decision);
    }
  }

  /** In every run of whole calls, among any other steps, a return is restocked at most once. */
  lemma {:induction false} WholeCallsRestockOnce(h: History, id: string)
    requires Genuine(h) && WholeCalls(h)
    ensures !RestockedTwice(h, id)
  {
    TwiceIffOvertaken(h, id);
    GenuineTracks(h);
    hide RestockedTwice, Genuine, Tracks, WholeCalls, OvertakenRefund, OvertakenApproval;
    if RefundOvertaken(h, id) {
      var p: nat, q: nat, k: nat :| OvertakenRefund(h, id, p, q, k);
      WholeRefundNotOvertaken(h, id, p, q, k);
    }
    if ApprovalOvertaken(h, id) {
      var p: nat, q: nat, d: nat, r: nat, k: nat :| OvertakenApproval(h, id, p, q, d, r, k);
      WholeApprovalNotOvertaken(h, id, p, q, d, r, k);
    }
  }

  // ----- Units ------------------------------------------------------------------------------

  /** Units put back for the return. */
  function PutBack(db: Db, id: string): int {
    RestockedUnits(db.ledger.moves, ReturnRef(id))
  }

  function Returned(db: Db, id: string): nat {
    if id in db.rmas then Units(db.rmas[id].lines) else 0
  }

  /** A committed refund puts back every restockable unit of its return. */
  lemma {:induction false} RestockUnits(db: Db, l: Label, id: string)
    requires CommitsRefund(db, l, id)
    ensures PutBack(Step(db, l), id) == PutBack(db, id) + Restockable(db.ledger.items, db.rmas[id].lines)
    ensures Step(db, l).rmas[id].lines == db.rmas[id].lines
    ensures Step(db, l).ledger == Restock(db.ledger, db.rmas[id].lines, l.targets, ReturnRef(id))
  {
    hide Restock, TargetsOk, Amount, RefundExists, RestockedUnits, Restockable;
    RestockExact(db.ledger, db.rmas[id].lines, l.targets, ReturnRef(id));
  }

  /**
   The units go to the items the queries answered: each item goes up by the lines that
   answered it, so each variant that has an item by all units returned of it.
   */
  lemma {:induction false} RestockPlaces(db: Db, l: Label, id: string, i: nat, variant: string)
    requires CommitsRefund(db, l, id)
    ensures var before, after := db.ledger.items, Step(db, l).ledger.items;
            && |after| == |before|
            && (i < |before| ==>
                  after[i] == before[i].(onHand := before[i].onHand + PutTo(db.rmas[id].lines, l.targets, i)))
            && OnHandOf(after, variant)
               == OnHandOf(before, variant) + if Tracked(before, variant) then Wanted(db.rmas[id].lines, variant) else 0
  {
    hide Step, Restock, TargetsOk, PutTo, OnHandOf, Tracked, Wanted;
    RestockUnits(db, l, id);
    RestockTotals(db.ledger, db.rmas[id].lines, l.targets, ReturnRef(id), variant);
    RestockSize(db.ledger, db.rmas[id].lines, l.targets, ReturnRef(id));
    if i < |db.ledger.items| {
      RestockLevels(db.ledger, db.rmas[id].lines, l.targets, ReturnRef(id), i);
    }
  }

  lemma {:induction false} RestockSize(l: Ledger, lines: seq<Line>, targets: seq<Option<nat>>, ref: Ref)
    requires TargetsOk(l.items, lines, targets)
    ensures |Restock(l, lines, targets, ref).items| == |l.items|
  {
    RestockExact(l, lines, targets, ref);
  }

  lemma {:induction false} OtherRefundPutsBackNothing(db: Db, l: Label, id: string)
    requires l.FinishRefund? && !CommitsRefund(db, l, id)
    ensures PutBack(Step(db, l), id) == PutBack(db, id)
  {
    if RefundPending(db, l.refund) && Targeted(db, l.refund, l.targets) && db.calls[l.refund].id in db.rmas {
      var other := db.calls[l.refund].id;
      if other != id {
        RestockOthers(db.ledger, db.rmas[other].lines, l.targets, ReturnRef(other), ReturnRef(id));
      }
    }
    hide Restock, TargetsOk, Amount, RefundExists, RestockedUnits;
  }

  lemma {:induction false} OtherStepPutsBackNothing(db: Db, l: Label, id: string)
    requires !l.FinishRefund?
    ensures PutBack(Step(db, l), id) == PutBack(db, id)
  {
    hide SellLines, Restock, ReadsOk, TargetsOk, AddRefunds, Total, Amount, UpsertPaid, UpsertFailed,
         RefundExists, IntentTaken, ConversionTaken, ConvertCart, FindPayment;
    if l.Deliver? && Answered(db, l.ev, l.answers) && Completes(db, l.ev) {
      var order := l.ev.order.value;
      SalesRestockNothing(db.ledger, db.orders[order].lines, l.answers, OrderRef(order), ReturnRef(id));
    }
    if l.NewStock? || l.AdjustStock? {
      var moves := Step(db, l).ledger.moves;
      assert moves == db.ledger.moves || moves[..|db.ledger.moves|] == db.ledger.moves;
    }
  }

  lemma {:induction false} DeliverKeepsReturns(db: Db, l: Label)
    requires l.Deliver?
    ensures Step(db, l).rmas == db.rmas
  {
    hide SellLines, ReadsOk, AddRefunds, Total, UpsertPaid, UpsertFailed, IntentTaken, ConversionTaken, ConvertCart,
         FindPayment, MarkRefunded, MarkPaid, Completes;
  }

  /** The lines of a return never change. */
  lemma {:induction false} LinesKept(db: Db, l: Label, id: string)
    requires id in db.rmas
    ensures id in Step(db, l).rmas && Step(db, l).rmas[id].lines == db.rmas[id].lines
  {
    hide Process, Answered, Restock, TargetsOk, Create, Adjust, Amount, RefundExists, IntentTaken, FindPayment,
         WriteFails, MarkRefunded, RefundAllowed, DecisionAllowed;
    if l.Deliver? {
      DeliverKeepsReturns(db, l);
    }
  }

  function Restockings(h: History, k: nat, id: string): nat
    requires Shaped(h) && k <= |h.ls|
  {
    if k == 0 then 0 else Restockings(h, k - 1, id) + if RestocksAt(h, k - 1, id) then 1 else 0
  }

  lemma {:induction false} StepPutsBack(h: History, k: nat, id: string)
    requires Genuine(h) && k < |h.ls|
    ensures var db, next := h.at[k], h.at[k + 1];
            && Returned(db, id) <= Returned(next, id)
            && 0 <= PutBack(next, id) - PutBack(db, id) <= (if RestocksAt(h, k, id) then Returned(next, id) else 0)
            && (id in db.rmas ==> Returned(db, id) == Returned(next, id))
            && (id !in db.rmas ==> !RestocksAt(h, k, id))
  {
    assert Follows(h, k);
    var db, l := h.at[k], h.ls[k];
    if id in db.rmas { LinesKept(db, l, id); }
    if RestocksAt(h, k, id) {
      RestockUnits(db, l, id);
      RestockableBounded(db.ledger.items, db.rmas[id].lines);
    } else if l.FinishRefund? {
      OtherRefundPutsBackNothing(db, l, id);
    } else {
      OtherStepPutsBackNothing(db, l, id);
    }
    hide Step, PutBack, WriteFails, Targeted, Restockable;
  }

  lemma {:induction false} OneMore(before: int, added: int, count: nat, some: nat, more: nat, restocks: bool)
    requires 0 <= before <= count * some && some <= more
    requires 0 <= added <= if restocks then more else 0
    ensures 0 <= before + added <= (count + if restocks then 1 else 0) * more
  {
    assert count * more == count * some + count * (more - some);
    assert (count + 1) * more == count * more + more;
  }

  /** The units put back are at most the units returned, once per restock. */
  lemma {:induction false} PutBackBounded(h: History, k: nat, id: string)
    requires Genuine(h) && k <= |h.ls|
    ensures 0 <= PutBack(h.at[k], id) <= Restockings(h, k, id) * Returned(h.at[k], id)
  {
    if k == 0 {
      assert h.at[0] == EMPTY;
    } else {
      PutBackBounded(h, k - 1, id);
      StepPutsBack(h, k - 1, id);
      hide PutBack, Returned, RestocksAt;
      var before, after := PutBack(h.at[k - 1], id), PutBack(h.at[k], id);
      OneMore(before, after - before, Restockings(h, k - 1, id), Returned(h.at[k - 1], id), Returned(h.at[k], id),
              RestocksAt(h, k - 1, id));
    }
  }

  lemma {:induction false} RestockedOnce(h: History, k: nat, id: string)
    requires Shaped(h) && k <= |h.ls| && !RestockedTwice(h, id)
    ensures Restockings(h, k, id) <= 1
    ensures Restockings(h, k, id) > 0 ==> exists j: nat :: j < k && RestocksAt(h, j, id)
  {
    hide RestocksAt;
    if k > 0 {
      RestockedOnce(h, k - 1, id);
    }
  }

  lemma {:induction false} AtMostOneTimes(count: nat, units: nat)
    requires count <= 1
    ensures count * units <= units
  {
  }

  /** In every run of whole calls, no more units of a return are put back than were returned. */
  lemma {:induction false} WholeCallsPutBack(h: History, id: string)
    requires Genuine(h) && WholeCalls(h)
    ensures var last := h.at[|h.ls|];
            0 <= PutBack(last, id) <= Returned(last, id)
  {
    var n := |h.ls|;
    assert n < |h.at|;
    hide *;
    WholeCallsRestockOnce(h, id);
    RestockedOnce(h, n, id);
    PutBackBounded(h, n, id);
    AtMostOneTimes(Restockings(h, n, id), Returned(h.at[n], id));
  }

  // ----- Both ways are open --------------------------------------------------------------------

  const ORDERED := EMPTY.(orders := map["o" := Order([], OrderPending, Unpaid, 0, 0, 0, None, false)])

  /** The order and its return with the given status and calls. */
  function WithReturn(status: ReturnStatus, calls: seq<Call>): Db {
    ORDERED.(rmas := map["r" := Return("o", status, [])], calls := calls)
  }

  /** Two refund calls whose checks both come first. */
  function TwoRefunds(): History {
    var c := RefundCall("r", None);
    History([PlaceOrder("o", [], 0, 0, None), RequestReturn("r", "o", []), BeginRefund("r", None),
             BeginRefund("r", None), FinishRefund(0, None, []), FinishRefund(1, None, [])],
            [EMPTY, ORDERED, WithReturn(Requested, []), WithReturn(Requested, [c]), WithReturn(Requested, [c, c]),
             WithReturn(ReturnRefunded, [Ended, c]), WithReturn(ReturnRefunded, [Ended, Ended])])
  }

  /** An approval that is overtaken by a whole refund call, and another whole refund call. */
  function LateApproval(): History {
    var a, c := DecisionCall("r", true), RefundCall("r", None);
    History([PlaceOrder("o", [], 0, 0, None), RequestReturn("r", "o", []), BeginDecision("r", true),
             BeginRefund("r", None), FinishRefund(1, None, []), FinishDecision(0),
             BeginRefund("r", None), FinishRefund(2, None, [])],
            [EMPTY, ORDERED, WithReturn(Requested, []), WithReturn(Requested, [a]), WithReturn(Requested, [a, c]),
             WithReturn(ReturnRefunded, [a, Ended]), WithReturn(Approved, [Ended, Ended]),
             WithReturn(Approved, [Ended, Ended, c]), WithReturn(ReturnRefunded, [Ended, Ended, Ended])])
  }

  lemma {:induction false} RefundStep(status: ReturnStatus, calls: seq<Call>, c: nat, after: seq<Call>)
    requires c < |calls| && calls[c] == RefundCall("r", None) && after == calls[c := Ended]
    ensures var db, l := WithReturn(status, calls), FinishRefund(c, None, []);
            CommitsRefund(db, l, "r") && Step(db, l) == WithReturn(ReturnRefunded, after)
  {
    var db := WithReturn(status, calls);
    assert Restock(db.ledger, [], [], ReturnRef("r")) == db.ledger;
    assert db.rmas["r" := Return("o", ReturnRefunded, [])] == WithReturn(ReturnRefunded, calls).rmas;
  }

  lemma {:induction false} CheckStep(status: ReturnStatus, calls: seq<Call>, after: seq<Call>)
    requires !Closed(status) && after == calls + [RefundCall("r", None)]
    ensures Step(WithReturn(status, calls), BeginRefund("r", None)) == WithReturn(status, after)
  {
  }

  lemma {:induction false} Requests(h: History)
    requires Shaped(h) && |h.ls| >= 2 && h.at[0] == EMPTY && h.at[1] == ORDERED && h.at[2] == WithReturn(Requested, [])
    requires h.ls[0] == PlaceOrder("o", [], 0, 0, None) && h.ls[1] == RequestReturn("r", "o", [])
    ensures Follows(h, 0) && Follows(h, 1)
  {
  }

  lemma {:induction false} ApprovalSteps(calls: seq<Call>, c: nat, after: seq<Call>)
    requires c < |calls| && calls[c] == DecisionCall("r", true) && after == calls[c := Ended]
    ensures Step(WithReturn(Requested, []), BeginDecision("r", true))
         == WithReturn(Requested, [DecisionCall("r", true)])
    ensures var db, l := WithReturn(ReturnRefunded, calls), FinishDecision(c);
            Approves(db, l, "r") && IsClosed(db, "r") && Step(db, l) == WithReturn(Approved, after)
  {
    assert [] + [DecisionCall("r", true)] == [DecisionCall("r", true)];
    assert WithReturn(ReturnRefunded, calls).rmas["r" := Return("o", Approved, [])] == WithReturn(Approved, calls).rmas;
  }

  lemma {:induction false} TwoRefundsBegin()
    ensures var h := TwoRefunds();
            Follows(h, 0) && Follows(h, 1) && Follows(h, 2) && Follows(h, 3)
  {
    hide Step, WithReturn;
    var c := RefundCall("r", None);
    Requests(TwoRefunds());
    CheckStep(Requested, [], [c]);
    CheckStep(Requested, [c], [c, c]);
  }

  lemma {:induction false} TwoRefundsEnd()
    ensures var h := TwoRefunds();
            Follows(h, 4) && Follows(h, 5)
  {
    hide Step, CommitsRefund, WithReturn;
    var c := RefundCall("r", None);
    RefundStep(Requested, [c, c], 0, [Ended, c]);
    RefundStep(ReturnRefunded, [Ended, c], 1, [Ended, Ended]);
  }

  lemma {:induction false} TwoRefundsIsRun()
    ensures Genuine(TwoRefunds())
  {
    hide Follows, WithReturn;
    TwoRefundsBegin();
    TwoRefundsEnd();
  }

  lemma {:induction false} TwoRefundsOpen()
    ensures Opens(TwoRefunds(), 3, 1)
  {
  }

  /** Two refund calls that both pass their checks first restock twice, without any approval. */
  lemma {:induction false} TwoRefundsRestockTwice()
    ensures var h := TwoRefunds();
            Genuine(h) && RefundOvertaken(h, "r") && !ApprovalOvertaken(h, "r")
  {
    hide Genuine, Step, CommitsRefund, IsClosed, Approves, WithReturn, Opens;
    var h, c := TwoRefunds(), RefundCall("r", None);
    TwoRefundsIsRun();
    TwoRefundsOpen();
    RefundStep(Requested, [c, c], 0, [Ended, c]);
    RefundStep(ReturnRefunded, [Ended, c], 1, [Ended, Ended]);
    assert OvertakenRefund(h, "r", 3, 4, 5);
    NoDecisions(h);
    assert forall d: nat :: !ReopensAt(h, d, "r");
  }

  lemma {:induction false} NoDecisions(h: History)
    requires Shaped(h) && forall k :: 0 <= k < |h.ls| ==> !h.ls[k].FinishDecision?
    ensures forall d: nat, id :: !ReopensAt(h, d, id)
  {
  }

  lemma {:induction false} LateApprovalBegins()
    ensures var h := LateApproval();
            Follows(h, 0) && Follows(h, 1) && Follows(h, 2) && Follows(h, 3)
  {
    hide Step, WithReturn, Approves, IsClosed;
    var a, c := DecisionCall("r", true), RefundCall("r", None);
    Requests(LateApproval());
    ApprovalSteps([a, Ended], 0, [Ended, Ended]);
    CheckStep(Requested, [a], [a, c]);
  }

  lemma {:induction false} LateApprovalEnds()
    ensures var h := LateApproval();
            Follows(h, 4) && Follows(h, 5) && Follows(h, 6) && Follows(h, 7)
  {
    hide Step, CommitsRefund, WithReturn, Approves, IsClosed;
    var a, c := DecisionCall("r", true), RefundCall("r", None);
    RefundStep(Requested, [a, c], 1, [a, Ended]);
    ApprovalSteps([a, Ended], 0, [Ended, Ended]);
    CheckStep(Approved, [Ended, Ended], [Ended, Ended, c]);
    RefundStep(Approved, [Ended, Ended, c], 2, [Ended, Ended, Ended]);
  }

  lemma {:induction false} LateApprovalIsRun()
    ensures Genuine(LateApproval())
  {
    hide Follows, WithReturn;
    LateApprovalBegins();
    LateApprovalEnds();
  }

  lemma {:induction false} LateApprovalOpens()
    ensures Opens(LateApproval(), 2, 0) && Opens(LateApproval(), 6, 2)
  {
  }

  /** An approval overtaken by a refund reopens the return for another one, each refund call being whole. */
  lemma {:induction false} LateApprovalRestocksTwice()
    ensures var h := LateApproval();
            Genuine(h) && ApprovalOvertaken(h, "r") && RestockedTwice(h, "r")
  {
    hide Genuine, Step, CommitsRefund, Approves, IsClosed, WithReturn, Opens;
    var h, a, c := LateApproval(), DecisionCall("r", true), RefundCall("r", None);
    LateApprovalIsRun();
    LateApprovalOpens();
    ApprovalSteps([a, Ended], 0, [Ended, Ended]);
    RefundStep(Requested, [a, c], 1, [a, Ended]);
    RefundStep(Approved, [Ended, Ended, c], 2, [Ended, Ended, Ended]);
    assert RestocksAt(h, 4, "r") && ReopensAt(h, 5, "r") && RestocksAt(h, 7, "r");
    assert OvertakenApproval(h, "r", 2, 4, 5, 6, 7);
  }
}
