/**
 Theorems about whole runs of the commerce machine: a paid order takes stock once
 except after a replay that meets a refunded order, carts convert once, refund rows
 are exactly the refunds announced, and the financial status converges.
 */
module CommerceRuns {
  import opened Text
  import opened Stock
  import opened Totals
  import opened Commerce

  // ----- At most one stock pass per order ----------------------------------------------

  /** The step commits a stock pass for the order. */
  predicate Sells(db: Db, l: Label, o: string)
  {
    l.Deliver? && l.eventId !in db.done && l.crash != BeforeCommit && Answered(db, l.ev, l.answers)
    && Completes(db, l.ev) && l.ev.order == Some(o) && OnCheckoutCompleted(db, l.ev, l.answers).Some?
  }

  /** An unmarked completion whose order was paid before and has been refunded in full since. */
  predicate Replay(db: Db, l: Label, o: string)
  {
    l.Deliver? && l.eventId !in db.done && l.crash != BeforeCommit && Answered(db, l.ev, l.answers)
    && l.ev.CheckoutCompleted? && l.ev.order == Some(o) && OnCheckoutCompleted(db, l.ev, l.answers).Some?
    && o in db.orders && db.orders[o].placed && db.orders[o].status == OrderRefunded
  }

  function Passes(db: Db, ls: seq<Label>, o: string): nat
    decreases |ls|
  {
    if ls == [] then 0
    else (if Sells(db, ls[0], o) then 1 else 0) + Passes(Step(db, ls[0]), ls[1..], o)
  }

  /** Some step of the run is a replay. */
  predicate HasReplay(db: Db, ls: seq<Label>, o: string)
    decreases |ls|
  {
    ls != [] && (Replay(db, ls[0], o) || HasReplay(Step(db, ls[0]), ls[1..], o))
  }

  predicate Placed(db: Db, o: string) {
    o in db.orders && db.orders[o].placed
  }

  function OrderedOf(db: Db, o: string): nat {
    if o in db.orders then Ordered(db.orders[o].lines) else 0
  }

  /** Units of the order that the step booked as sold. */
  function NewlySold(db: Db, next: Db, o: string): int {
    SoldUnits(next.ledger.moves, OrderRef(o)) - SoldUnits(db.ledger.moves, OrderRef(o))
  }

  /** What the step's pass gets for the order out of the levels its queries saw. */
  function StepGets(db: Db, l: Label, o: string): int {
    if Sells(db, l, o) then Gets(db.orders[o].lines, l.answers) else 0
  }

  /** Placing is exactly selling, lines are never edited, and what is booked as sold is what the pass gets. */
  ghost predicate StepOk(db: Db, l: Label, next: Db, o: string)
  {
    && (Placed(next, o) <==> Placed(db, o) || Sells(db, l, o))
    && (o in db.orders ==> o in next.orders && next.orders[o].lines == db.orders[o].lines)
    && NewlySold(db, next, o) == StepGets(db, l, o)
  }

  lemma {:induction false} StepGetsBounded(db: Db, l: Label, o: string)
    ensures 0 <= StepGets(db, l, o) <= if Sells(db, l, o) then OrderedOf(db, o) else 0
  {
    hide Gets, Ordered, OnCheckoutCompleted, Answered, ReadsOk;
    if Sells(db, l, o) {
      SellsAnswered(db, l, o);
      GetsBounded(db.orders[o].lines, l.answers);
    }
  }

  lemma {:induction false} SellsAnswered(db: Db, l: Label, o: string)
    requires Sells(db, l, o)
    ensures o in db.orders && |l.answers| == |db.orders[o].lines|
  {
    hide OnCheckoutCompleted;
  }

  lemma {:induction false} CompletionSells(db: Db, l: Label, o: string)
    requires l.Deliver? && l.ev.CheckoutCompleted?
    ensures StepOk(db, l, Step(db, l), o)
  {
    hide SellLines, SoldUnits, UpsertPaid, ConvertCart, IntentTaken, ConversionTaken, ReadsOk, Gets, GetsOf, OnHandOf;
    if Completes(db, l.ev) && Answered(db, l.ev, l.answers) {
      SellLinesBounded(db.ledger, db.orders[l.ev.order.value].lines, l.answers, OrderRef(l.ev.order.value));
      PassSells(db.ledger, db.orders[l.ev.order.value].lines, l.answers, OrderRef(l.ev.order.value), "");
    }
  }

  lemma {:induction false} ReturnRefundSells(db: Db, l: Label, o: string)
    requires l.FinishRefund?
    ensures StepOk(db, l, Step(db, l), o)
  {
    if RefundPending(db, l.refund) && Targeted(db, l.refund, l.targets) && db.calls[l.refund].id in db.rmas {
      var id := db.calls[l.refund].id;
      RestockExact(db.ledger, db.rmas[id].lines, l.targets, ReturnRef(id));
    }
    hide Restock, SoldUnits, Ordered, RefundExists, Amount, TargetsOk;
  }

  lemma {:induction false} OtherEvents(db: Db, l: Label, o: string)
    requires l.Deliver? && !l.ev.CheckoutCompleted?
    ensures StepOk(db, l, Step(db, l), o)
  {
    hide SoldUnits, Ordered, RefundExists, AddRefunds, Total, UpsertFailed, OnCheckoutCompleted, ReadsOk, FindPayment;
  }

  lemma {:induction false} ManualStock(db: Db, l: Label, o: string)
    requires (l.NewStock? || l.AdjustStock?)
    ensures StepOk(db, l, Step(db, l), o)
  {
    hide OnCheckoutCompleted, Ordered;
    PostedMoves(db, Step(db, l), o);
  }

  lemma {:induction false} OtherSteps(db: Db, l: Label, o: string)
    requires !l.Deliver? && !l.FinishRefund? && !l.NewStock? && !l.AdjustStock?
    ensures StepOk(db, l, Step(db, l), o)
  {
    hide SoldUnits, Ordered, RefundExists, IntentTaken, Process, Answered, CommitRefund, Targeted, Create, Adjust;
  }

  /** One step: placing is exactly selling, and only a selling step books sales of the order. */
  lemma {:induction false} StepSells(db: Db, l: Label, o: string)
    requires Inv(db)
    ensures StepOk(db, l, Step(db, l), o)
    ensures Replay(db, l, o) <==> Sells(db, l, o) && Placed(db, o)
  {
    if l.Deliver? && l.ev.CheckoutCompleted? {
      CompletionSells(db, l, o);
    } else if l.FinishRefund? {
      ReturnRefundSells(db, l, o);
    } else if l.Deliver? {
      OtherEvents(db, l, o);
    } else if l.NewStock? || l.AdjustStock? {
      ManualStock(db, l, o);
    } else {
      OtherSteps(db, l, o);
    }
    hide Step, OnCheckoutCompleted;
  }

  /** Manual movements are not sales of an order. */
  lemma {:induction false} PostedMoves(db: Db, next: Db, o: string)
    requires next.ledger.moves == db.ledger.moves
      || exists m: Move :: m.ref == Manual && next.ledger.moves == db.ledger.moves + [m]
    ensures SoldUnits(next.ledger.moves, OrderRef(o)) == SoldUnits(db.ledger.moves, OrderRef(o))
  {
    if next.ledger.moves != db.ledger.moves {
      var m: Move :| m.ref == Manual && next.ledger.moves == db.ledger.moves + [m];
      assert next.ledger.moves[..|db.ledger.moves|] == db.ledger.moves;
    }
  }

  /** The stock passes of a run: the first one, and one more exactly when a replay happens. */
  lemma {:induction false} PassesExact(db: Db, ls: seq<Label>, o: string)
    requires Inv(db)
    ensures Placed(Run(db, ls), o) <==> Placed(db, o) || Passes(db, ls, o) > 0
    ensures Placed(db, o) ==> (HasReplay(db, ls, o) <==> Passes(db, ls, o) > 0)
    ensures !Placed(db, o) ==> (HasReplay(db, ls, o) <==> Passes(db, ls, o) > 1)
    decreases |ls|
  {
    if ls != [] {
      hide Step, Sells, Replay, Inv, Placed;
      StepSells(db, ls[0], o);
      StepKeepsInv(db, ls[0]);
      PassesExact(Step(db, ls[0]), ls[1..], o);
    }
  }

  /**
   Over any run of deliveries, redeliveries, crashes, lost markers, refunds and returns,
   an order that was not paid yet takes stock in at most one pass if and only if no
   marker-less redelivery meets it after a full refund.
   */
  lemma {:induction false} AtMostOncePass(db: Db, ls: seq<Label>, o: string)
    requires Inv(db) && !Placed(db, o)
    ensures Passes(db, ls, o) <= 1 <==> !HasReplay(db, ls, o)
  {
    PassesExact(db, ls, o);
  }

  /** Units booked as sold never exceed the units ordered, once per pass, whatever levels the passes saw. */
  lemma {:induction false} SoldWithinOrdered(db: Db, ls: seq<Label>, o: string)
    requires Inv(db)
    ensures 0 <= NewlySold(db, Run(db, ls), o) <= Passes(db, ls, o) * OrderedOf(Run(db, ls), o)
    ensures o in db.orders ==> OrderedOf(Run(db, ls), o) == OrderedOf(db, o)
    decreases |ls|
  {
    if ls != [] {
      var next := Step(db, ls[0]);
      StepSells(db, ls[0], o);
      StepKeepsInv(db, ls[0]);
      assert Sells(db, ls[0], o) ==> o in db.orders;
      assert o in db.orders ==> o in next.orders && OrderedOf(next, o) == OrderedOf(db, o);
      StepGetsBounded(db, ls[0], o);
      hide *;
      SoldWithinOrdered(next, ls[1..], o);
      SoldStep(db, ls, o);
    }
  }

  /** What the passes of a run get for the order together. */
  function RunGets(db: Db, ls: seq<Label>, o: string): int
    decreases |ls|
  {
    if ls == [] then 0 else StepGets(db, ls[0], o) + RunGets(Step(db, ls[0]), ls[1..], o)
  }

  /** The units booked as sold are exactly what the passes got out of the levels they saw. */
  lemma {:induction false} SoldExact(db: Db, ls: seq<Label>, o: string)
    requires Inv(db)
    ensures NewlySold(db, Run(db, ls), o) == RunGets(db, ls, o)
    decreases |ls|
  {
    hide Step, StepGets, SoldUnits, Inv;
    if ls != [] {
      StepSells(db, ls[0], o);
      StepKeepsInv(db, ls[0]);
      SoldExact(Step(db, ls[0]), ls[1..], o);
    }
  }

  lemma {:induction false} OneMorePass(first: int, rest: int, passes: nat, units: nat, sells: bool)
    requires if sells then 0 <= first <= units else first == 0
    requires 0 <= rest <= passes * units
    ensures 0 <= first + rest <= ((if sells then 1 else 0) + passes) * units
  {
    assert (1 + passes) * units == units + passes * units;
  }

  /** The bound for a run from the bound for its tail. */
  lemma {:induction false} SoldStep(db: Db, ls: seq<Label>, o: string)
    requires ls != []
    requires var next := Step(db, ls[0]);
             var last := Run(next, ls[1..]);
             && (if Sells(db, ls[0], o) then 0 <= NewlySold(db, next, o) <= OrderedOf(last, o)
                 else NewlySold(db, next, o) == 0)
             && 0 <= NewlySold(next, last, o) <= Passes(next, ls[1..], o) * OrderedOf(last, o)
    ensures 0 <= NewlySold(db, Run(db, ls), o) <= Passes(db, ls, o) * OrderedOf(Run(db, ls), o)
  {
    hide Step, Sells, OrderedOf, SoldUnits;
    var next := Step(db, ls[0]);
    var last := Run(next, ls[1..]);
    var first, rest, passes := NewlySold(db, next, o), NewlySold(next, last, o), Passes(next, ls[1..], o);
    assert Run(db, ls) == last;
    assert NewlySold(db, last, o) == first + rest;
    assert Passes(db, ls, o) == (if Sells(db, ls[0], o) then 1 else 0) + passes;
    hide Run, Passes, NewlySold;
    OneMorePass(first, rest, passes, OrderedOf(last, o), Sells(db, ls[0], o));
  }

  lemma {:induction false} OnePassAtMost(passes: nat, units: nat)
    requires passes <= 1
    ensures passes * units <= units
  {
  }

  /** A run without a replay sells no more of an order than was ordered. */
  lemma {:induction false} NoOversell(ls: seq<Label>, o: string)
    requires !HasReplay(EMPTY, ls, o)
    ensures var last := Run(EMPTY, ls);
            0 <= SoldUnits(last.ledger.moves, OrderRef(o)) <= OrderedOf(last, o)
  {
    AtMostOncePass(EMPTY, ls, o);
    SoldWithinOrdered(EMPTY, ls, o);
    hide Run, Passes, HasReplay, OrderedOf;
    OnePassAtMost(Passes(EMPTY, ls, o), OrderedOf(Run(EMPTY, ls), o));
  }

  /** The same completion again after the marker expired, on an order refunded in full: a second pass. */
  lemma {:induction false} ReplayPasses(db: Db, eventId: string, o: string, answers: seq<Read>)
    requires Inv(db) && Placed(db, o) && db.orders[o].status == OrderRefunded && eventId !in db.done
    requires ReadsOk(db.ledger.items, db.orders[o].lines, answers)
    ensures Passes(db, [Deliver(eventId, CheckoutCompleted(Some(o), None, None, 0, None), NoCrash, answers)], o) == 1
  {
    var l := Deliver(eventId, CheckoutCompleted(Some(o), None, None, 0, None), NoCrash, answers);
    assert OrderOk(db.orders[o]);
    assert Sells(db, l, o);
    PassesCons(db, l, [], o);
    assert [l] + [] == [l];
  }

  /** Such a state is reached: paid, then refunded in full, then the marker expires. */
  lemma {:induction false} ReplayReachable()
    ensures exists ls ::
              && Passes(EMPTY, ls, "o") == 1 && "evt1" !in Run(EMPTY, ls).done
              && Placed(Run(EMPTY, ls), "o") && Run(EMPTY, ls).orders["o"].status == OrderRefunded
  {
    var l1 := PlaceOrder("o", [], 100, 0, None);
    var l2 := Deliver("evt1", CheckoutCompleted(Some("o"), Some("pi"), Some(100), 0, None), NoCrash, []);
    var l3 := Deliver("evt2", ChargeRefunded(Some("pi"), [StripeRefund("re", 100)]), NoCrash, []);
    var l4 := MarkerExpires("evt1");
    hide Step, Sells;
    var s2 := PlaceAndPay(l1, l2);
    var s4 := RefundAndExpire(s2, l3, l4);
    RunFour(EMPTY, l1, l2, l3, l4, "o");
    hide Run, Passes;
    assert Passes(EMPTY, [l1, l2, l3, l4], "o") == 1;
  }

  lemma {:induction false} PlaceAndPay(l1: Label, l2: Label) returns (last: Db)
    requires l1 == PlaceOrder("o", [], 100, 0, None)
    requires l2 == Deliver("evt1", CheckoutCompleted(Some("o"), Some("pi"), Some(100), 0, None), NoCrash, [])
    ensures last == Step(Step(EMPTY, l1), l2)
    ensures last == EMPTY.(orders := map["o" := Order([], OrderPaid, FinPaid, 100, 0, 0, Some("pi"), true)],
                           payments := [Payment("pi", "o", Succeeded, 100, 0)], done := {"evt1"})
    ensures Sells(Step(EMPTY, l1), l2, "o") && !Sells(EMPTY, l1, "o")
  {
    assert SellLines(Ledger([], []), [], [], OrderRef("o")) == Ledger([], []);
    last := Step(Step(EMPTY, l1), l2);
    assert last.orders == map["o" := Order([], OrderPaid, FinPaid, 100, 0, 0, Some("pi"), true)];
    assert last.payments == [] + [Payment("pi", "o", Succeeded, 100, 0)];
  }

  lemma {:induction false} RefundAndExpire(db: Db, l3: Label, l4: Label) returns (last: Db)
    requires db == EMPTY.(orders := map["o" := Order([], OrderPaid, FinPaid, 100, 0, 0, Some("pi"), true)],
                          payments := [Payment("pi", "o", Succeeded, 100, 0)], done := {"evt1"})
    requires l3 == Deliver("evt2", ChargeRefunded(Some("pi"), [StripeRefund("re", 100)]), NoCrash, [])
    requires l4 == MarkerExpires("evt1")
    ensures last == Step(Step(db, l3), l4) && !Sells(db, l3, "o") && !Sells(Step(db, l3), l4, "o")
    ensures "evt1" !in last.done && Placed(last, "o") && last.orders["o"].status == OrderRefunded
  {
    assert Total([StripeRefund("re", 100)]) == 100;
    assert "evt1"[3] != "evt2"[3];
    last := Step(Step(db, l3), l4);
  }

  lemma {:induction false} PassesCons(db: Db, l: Label, ls: seq<Label>, o: string)
    ensures Passes(db, [l] + ls, o) == (if Sells(db, l, o) then 1 else 0) + Passes(Step(db, l), ls, o)
  {
    hide Step, Sells;
    assert ([l] + ls)[1..] == ls;
  }

  lemma {:induction false} RunFour(db: Db, l1: Label, l2: Label, l3: Label, l4: Label, o: string)
    ensures var a := Step(db, l1);
            var b := Step(a, l2);
            var c := Step(b, l3);
            && Run(db, [l1, l2, l3, l4]) == Step(c, l4)
            && Passes(db, [l1, l2, l3, l4], o)
               == (if Sells(db, l1, o) then 1 else 0) + (if Sells(a, l2, o) then 1 else 0)
                  + (if Sells(b, l3, o) then 1 else 0) + (if Sells(c, l4, o) then 1 else 0)
  {
    hide Step, Sells;
    var a := Step(db, l1);
    var b := Step(a, l2);
    var c := Step(b, l3);
    assert [l1, l2, l3, l4] == [l1] + ([l2] + ([l3] + ([l4] + [])));
    RunCons(db, l1, [l2] + ([l3] + ([l4] + [])));
    RunCons(a, l2, [l3] + ([l4] + []));
    RunCons(b, l3, [l4] + []);
    RunCons(c, l4, []);
    PassesCons(db, l1, [l2] + ([l3] + ([l4] + [])), o);
    PassesCons(a, l2, [l3] + ([l4] + []), o);
    PassesCons(b, l3, [l4] + [], o);
    PassesCons(c, l4, [], o);
  }

  // ----- Carts and refund rows only grow -------------------------------------------------

  lemma {:induction false} StepKeepsRefunds(db: Db, l: Label)
    ensures db.refunds <= Step(db, l).refunds
  {
    if l.Deliver? && l.ev.ChargeRefunded? && l.ev.chargeIntent.Some? {
      var i := FindPayment(db.payments, l.ev.chargeIntent.value);
      if i < |db.payments| {
        AddRefundsGrows(db.refunds, db.payments[i].order, db.payments[i].intent, l.ev.refunds);
      }
    }
    hide AddRefunds, Total, Amount, UpsertPaid, UpsertFailed, RefundExists, IntentTaken, ConversionTaken, ConvertCart;
  }

  lemma {:induction false} StepKeepsCarts(db: Db, l: Label)
    ensures forall t :: t in db.carts && db.carts[t].Some? ==>
              t in Step(db, l).carts && Step(db, l).carts[t] == db.carts[t]
  {
    hide AddRefunds, Total, Amount, UpsertPaid, UpsertFailed, RefundExists, IntentTaken, ConversionTaken, FindPayment,
         SellLines, Restock, ReadsOk, TargetsOk, Create, Adjust;
  }

  lemma {:induction false} AddRefundsGrows(rows: seq<Refund>, order: string, intent: string,
                                           snapshot: seq<StripeRefund>)
    ensures rows <= AddRefunds(rows, order, intent, snapshot)
    decreases |snapshot|
  {
    if snapshot != [] {
      AddRefundsGrows(if RefundExists(rows, snapshot[0].id) then rows
                      else rows + [Refund(order, intent, snapshot[0].amount, Some(snapshot[0].id))],
                      order, intent, snapshot[1..]);
    }
  }

  /** A converted cart keeps its order, and a refund row is never changed or removed, for ever. */
  lemma {:induction false} RunGrows(db: Db, ls: seq<Label>)
    ensures db.refunds <= Run(db, ls).refunds
    ensures forall t :: t in db.carts && db.carts[t].Some? ==>
              t in Run(db, ls).carts && Run(db, ls).carts[t] == db.carts[t]
    decreases |ls|
  {
    if ls != [] {
      StepKeepsRefunds(db, ls[0]);
      StepKeepsCarts(db, ls[0]);
      hide Step;
      RunGrows(Step(db, ls[0]), ls[1..]);
    }
  }

  // ----- The stored refund ids are the announced ones -------------------------------------

  function StoredIds(refunds: seq<Refund>): set<string> {
    set k | 0 <= k < |refunds| && refunds[k].stripeId.Some? :: refunds[k].stripeId.value
  }

  function SnapshotIds(snapshot: seq<StripeRefund>): set<string> {
    set k | 0 <= k < |snapshot| :: snapshot[k].id
  }

  /** The Stripe refund ids a committed step announces for a known payment. */
  function Announced(db: Db, l: Label): set<string>
  {
    match l
    case Deliver(id, ev, crash, _) =>
      if id !in db.done && crash != BeforeCommit && ev.ChargeRefunded? && ev.chargeIntent.Some?
         && FindPayment(db.payments, ev.chargeIntent.value) < |db.payments| && OnChargeRefunded(db, ev).Some?
      then SnapshotIds(ev.refunds) else {}
    case AdminRefund(order, p, amount, stripeId) =>
      if CommitAdminRefund(db, order, p, amount, stripeId).Some? then {stripeId} else {}
    case FinishRefund(c, stripeId, targets) =>
      if Targeted(db, c, targets) && RefundPending(db, c) && db.calls[c].paid.Some? && stripeId.Some?
         && !WriteFails(db, c, stripeId)
      then {stripeId.value} else {}
    case _ => {}
  }

  function Seen(db: Db, ls: seq<Label>): set<string>
    decreases |ls|
  {
    if ls == [] then {} else Announced(db, ls[0]) + Seen(Step(db, ls[0]), ls[1..])
  }

  lemma {:induction false} StoredIdsSnoc(refunds: seq<Refund>, r: Refund)
    ensures StoredIds(refunds + [r]) == StoredIds(refunds) + if r.stripeId.Some? then {r.stripeId.value} else {}
  {
    var all := refunds + [r];
    forall id ensures id in StoredIds(all)
                 <==> id in StoredIds(refunds) || r.stripeId == Some(id) {
      if id in StoredIds(refunds) {
        var k :| 0 <= k < |refunds| && refunds[k].stripeId == Some(id);
        assert all[k].stripeId == Some(id);
      }
      if r.stripeId == Some(id) { assert all[|refunds|].stripeId == Some(id); }
    }
  }

  lemma {:induction false} AddRefundsIds(rows: seq<Refund>, order: string, intent: string, snapshot: seq<StripeRefund>)
    ensures StoredIds(AddRefunds(rows, order, intent, snapshot)) == StoredIds(rows) + SnapshotIds(snapshot)
    decreases |snapshot|
  {
    if snapshot != [] {
      var row := Refund(order, intent, snapshot[0].amount, Some(snapshot[0].id));
      StoredIdsSnoc(rows, row);
      var next := if RefundExists(rows, snapshot[0].id) then rows else rows + [row];
      AddRefundsIds(next, order, intent, snapshot[1..]);
      assert SnapshotIds(snapshot) == {snapshot[0].id} + SnapshotIds(snapshot[1..]) by {
        assert forall k :: 1 <= k < |snapshot| ==> snapshot[k] == snapshot[1..][k - 1];
      }
      assert snapshot[0].id in StoredIds(next);
    }
  }

  lemma {:induction false} StepIds(db: Db, l: Label)
    ensures StoredIds(Step(db, l).refunds) == StoredIds(db.refunds) + Announced(db, l)
  {
    hide SellLines, Restock, ReadsOk, TargetsOk, Amount, UpsertPaid, UpsertFailed, IntentTaken, ConversionTaken, Total,
         StoredIds, AddRefunds, RefundExists, SnapshotIds, Create, Adjust, ConvertCart, RefundAllowed, DecisionAllowed;
    match l {
      case Deliver(_, ev, _, _) =>
        if ev.ChargeRefunded? && ev.chargeIntent.Some? {
          var i := FindPayment(db.payments, ev.chargeIntent.value);
          if i < |db.payments| {
            AddRefundsIds(db.refunds, db.payments[i].order, db.payments[i].intent, ev.refunds);
          }
        }
      case AdminRefund(order, p, amount, stripeId) =>
        StoredIdsSnoc(db.refunds, Refund(order, p.intent, amount, Some(stripeId)));
      case FinishRefund(c, stripeId, _) =>
        if RefundPending(db, c) && db.calls[c].paid.Some? && db.calls[c].id in db.rmas {
          var r := db.rmas[db.calls[c].id];
          StoredIdsSnoc(db.refunds, Refund(r.order, db.calls[c].paid.value.intent, Amount(r.lines), stripeId));
        }
      case _ =>
    }
  }

  /** Under any interleaving, the stored Stripe refund ids are the union of the announced ones, each in one row. */
  lemma {:induction false} RefundsConverge(db: Db, ls: seq<Label>)
    requires Inv(db)
    ensures StoredIds(Run(db, ls).refunds) == StoredIds(db.refunds) + Seen(db, ls)
    ensures OneRowPerRefund(Run(db, ls).refunds)
    decreases |ls|
  {
    if ls != [] {
      StepIds(db, ls[0]);
      StepKeepsInv(db, ls[0]);
      hide Step, Announced, Inv;
      RefundsConverge(Step(db, ls[0]), ls[1..]);
    } else {
      RunKeepsInv(db, ls);
    }
  }

  // ----- The financial status converges ------------------------------------------------------

  /** What the refund rows say was given back of a payment. */
  function StoredTotal(refunds: seq<Refund>, intent: string): int {
    if refunds == [] then 0
    else
      var n := |refunds| - 1;
      StoredTotal(refunds[..n], intent) + if refunds[n].intent == intent then refunds[n].amountCents else 0
  }

  ghost predicate DistinctIds(snapshot: seq<StripeRefund>) {
    forall j, k :: 0 <= j < k < |snapshot| ==> snapshot[j].id != snapshot[k].id
  }

  /** The snapshot lists every stored refund of the payment, and lists no refund stored for another. */
  ghost predicate Complete(refunds: seq<Refund>, intent: string, snapshot: seq<StripeRefund>) {
    && DistinctIds(snapshot)
    && (forall k :: 0 <= k < |refunds| && refunds[k].intent == intent ==>
          refunds[k].stripeId.Some? && StripeRefund(refunds[k].stripeId.value, refunds[k].amountCents) in snapshot)
    && (forall k, j :: 0 <= k < |refunds| && 0 <= j < |snapshot| && refunds[k].stripeId == Some(snapshot[j].id) ==>
          refunds[k].intent == intent)
  }

  /** The part of the snapshot that is stored already. */
  function TotalStored(refunds: seq<Refund>, snapshot: seq<StripeRefund>): int {
    if snapshot == [] then 0
    else (if RefundExists(refunds, snapshot[0].id) then snapshot[0].amount else 0) + TotalStored(refunds, snapshot[1..])
  }

  /** Storing one more row counts its amount once, when the snapshot has its id. */
  lemma {:induction false} TotalStoredSnoc(refunds: seq<Refund>, r: Refund, snapshot: seq<StripeRefund>)
    requires DistinctIds(snapshot)
    requires r.stripeId.Some? ==> !RefundExists(refunds, r.stripeId.value)
    requires forall j :: 0 <= j < |snapshot| && r.stripeId == Some(snapshot[j].id) ==>
               snapshot[j].amount == r.amountCents
    ensures TotalStored(refunds + [r], snapshot) == TotalStored(refunds, snapshot)
         + if r.stripeId.Some? && r.stripeId.value in SnapshotIds(snapshot) then r.amountCents else 0
    decreases |snapshot|
  {
    if snapshot != [] {
      var id := snapshot[0].id;
      assert forall j :: 1 <= j < |snapshot| ==> snapshot[j] == snapshot[1..][j - 1];
      TotalStoredSnoc(refunds, r, snapshot[1..]);
      assert RefundExists(refunds + [r], id) <==> RefundExists(refunds, id) || r.stripeId == Some(id) by {
        var all := refunds + [r];
        assert all[|refunds|] == r && forall k :: 0 <= k < |refunds| ==> all[k] == refunds[k];
      }
      assert SnapshotIds(snapshot) == {id} + SnapshotIds(snapshot[1..]);
    }
  }

  lemma {:induction false} TotalStoredNone(snapshot: seq<StripeRefund>)
    ensures TotalStored([], snapshot) == 0
  {
    if snapshot != [] {
      TotalStoredNone(snapshot[1..]);
    }
  }

  /** A complete snapshot accounts for exactly what is stored for the payment. */
  lemma {:induction false} StoredIsInSnapshot(refunds: seq<Refund>, intent: string, snapshot: seq<StripeRefund>)
    requires OneRowPerRefund(refunds) && Complete(refunds, intent, snapshot)
    ensures StoredTotal(refunds, intent) == TotalStored(refunds, snapshot)
  {
    if refunds == [] {
      TotalStoredNone(snapshot);
    } else {
      var n := |refunds| - 1;
      var r := refunds[n];
      assert refunds == refunds[..n] + [r];
      StoredIsInSnapshot(refunds[..n], intent, snapshot);
      if r.intent == intent {
        assert StripeRefund(r.stripeId.value, r.amountCents) in snapshot;
        assert r.stripeId.value in SnapshotIds(snapshot);
      }
      TotalStoredSnoc(refunds[..n], r, snapshot);
    }
  }

  lemma {:induction false} StoredTotalSnoc(refunds: seq<Refund>, r: Refund, intent: string)
    ensures StoredTotal(refunds + [r], intent)
         == StoredTotal(refunds, intent) + if r.intent == intent then r.amountCents else 0
  {
    assert (refunds + [r])[..|refunds|] == refunds;
  }

  /** Adding the missing rows of a snapshot brings the stored total up by exactly their amounts. */
  lemma {:induction false} AddRefundsTotal(rows: seq<Refund>, order: string, intent: string,
                                           snapshot: seq<StripeRefund>)
    requires DistinctIds(snapshot)
    ensures StoredTotal(AddRefunds(rows, order, intent, snapshot), intent)
         == StoredTotal(rows, intent) + Total(snapshot) - TotalStored(rows, snapshot)
    decreases |snapshot|
  {
    if snapshot != [] {
      var r := Refund(order, intent, snapshot[0].amount, Some(snapshot[0].id));
      var next := if RefundExists(rows, snapshot[0].id) then rows else rows + [r];
      assert forall j :: 1 <= j < |snapshot| ==> snapshot[j] == snapshot[1..][j - 1];
      assert snapshot[0].id !in SnapshotIds(snapshot[1..]);
      AddRefundsTotal(next, order, intent, snapshot[1..]);
      StoredTotalSnoc(rows, r, intent);
      if next != rows {
        TotalStoredSnoc(rows, r, snapshot[1..]);
      }
    }
  }

  lemma {:induction false} SnapshotSettlesHere(db: Db, intent: string, snapshot: seq<StripeRefund>)
    requires Inv(db) && FindPayment(db.payments, intent) < |db.payments| && Complete(db.refunds, intent, snapshot)
    ensures var p := db.payments[FindPayment(db.payments, intent)];
            var after := OnChargeRefunded(db, ChargeRefunded(Some(intent), snapshot));
            && after.Some?
            && StoredTotal(after.value.refunds, intent) == Total(snapshot)
            && p.order in after.value.orders
            && after.value.orders[p.order].financial
               == if Total(snapshot) >= p.amountCents then FullyRefunded else PartiallyRefunded
  {
    var p := db.payments[FindPayment(db.payments, intent)];
    assert OneRowPerRefund(db.refunds) && DistinctIds(snapshot);
    AddRefundsTotal(db.refunds, p.order, intent, snapshot);
    StoredIsInSnapshot(db.refunds, intent, snapshot);
    hide Complete, Conserved, AddRefunds, TotalStored, Total, StoredTotal, OneRowPerRefund, DistinctIds;
  }

  /**
   When the snapshot processed last is complete, whatever happened before it, the refund
   rows add up to the snapshot and the order is REFUNDED exactly when they reach the
   captured amount, PARTIALLY_REFUNDED otherwise.
   */
  lemma {:induction false} SnapshotSettles(ls: seq<Label>, eventId: string, intent: string,
                                           snapshot: seq<StripeRefund>, crash: Crash)
    requires crash != BeforeCommit
    requires var db := Run(EMPTY, ls);
             && eventId !in db.done
             && FindPayment(db.payments, intent) < |db.payments|
             && Complete(db.refunds, intent, snapshot)
    ensures var db := Run(EMPTY, ls);
            var p := db.payments[FindPayment(db.payments, intent)];
            var after := Step(db, Deliver(eventId, ChargeRefunded(Some(intent), snapshot), crash, []));
            && StoredTotal(after.refunds, intent) == Total(snapshot)
            && p.order in after.orders
            && after.orders[p.order].financial
               == if StoredTotal(after.refunds, intent) >= p.amountCents then FullyRefunded else PartiallyRefunded
  {
    ReachableInv(ls);
    SnapshotSettlesHere(Run(EMPTY, ls), intent, snapshot);
    hide Run, Inv, Complete, OnChargeRefunded, Total, StoredTotal;
  }

  /** Only admin refunds of one payment of an order, of no negative amount. */
  predicate AdminRefunds(ls: seq<Label>, order: string, p: Captured) {
    forall k :: 0 <= k < |ls| ==>
      ls[k].AdminRefund? && ls[k].order == order && ls[k].payment == p && ls[k].amount >= 0
  }

  predicate CommitsAdmin(db: Db, l: Label) {
    l.AdminRefund? && CommitAdminRefund(db, l.order, l.payment, l.amount, l.stripeId).Some?
  }

  /** What the committed refunds of the run give back together. */
  function AdminTotal(db: Db, ls: seq<Label>): int
    decreases |ls|
  {
    if ls == [] then 0
    else (if CommitsAdmin(db, ls[0]) then ls[0].amount else 0) + AdminTotal(Step(db, ls[0]), ls[1..])
  }

  /** The amount of the last committed refund. */
  function LastAmount(db: Db, ls: seq<Label>): Option<int>
    decreases |ls|
  {
    if ls == [] then None
    else
      var later := LastAmount(Step(db, ls[0]), ls[1..]);
      if later.None? && CommitsAdmin(db, ls[0]) then Some(ls[0].amount) else later
  }

  /** One admin refund adds its row and judges its own amount, or changes nothing. */
  lemma {:induction false} AdminStep(db: Db, l: Label)
    requires l.AdminRefund? && l.order in db.orders
    ensures var next, amount, p := Step(db, l), l.amount, l.payment;
            && l.order in next.orders
            && if CommitsAdmin(db, l) then
                 && StoredTotal(next.refunds, p.intent) == StoredTotal(db.refunds, p.intent) + amount
                 && next.orders[l.order].financial
                    == (if amount >= p.amountCents then FullyRefunded else PartiallyRefunded)
               else next == db
  {
    StoredTotalSnoc(db.refunds, Refund(l.order, l.payment.intent, l.amount, Some(l.stripeId)), l.payment.intent);
    hide StoredTotal, RefundExists, FindPayment;
  }

  /** A run of admin refunds adds up in the rows, but the status follows the last amount alone. */
  lemma {:induction false} AdminRun(db: Db, ls: seq<Label>, order: string, p: Captured)
    requires AdminRefunds(ls, order, p) && order in db.orders
    ensures var last := Run(db, ls);
            && StoredTotal(last.refunds, p.intent) == StoredTotal(db.refunds, p.intent) + AdminTotal(db, ls)
            && order in last.orders
            && last.orders[order].financial
               == (match LastAmount(db, ls)
                   case None => db.orders[order].financial
                   case Some(a) => if a >= p.amountCents then FullyRefunded else PartiallyRefunded)
    ensures match LastAmount(db, ls)
            case None => AdminTotal(db, ls) == 0
            case Some(a) => 0 <= a <= AdminTotal(db, ls)
    decreases |ls|
  {
    if ls != [] {
      AdminStep(db, ls[0]);
      assert ls[0].amount >= 0;
      hide Step, StoredTotal, CommitsAdmin;
      AdminRun(Step(db, ls[0]), ls[1..], order, p);
    }
  }

  /**
   After any run of admin refunds of a payment, the order is REFUNDED exactly when the
   stored refunds reach the captured amount, if and only if the last refund reached it by
   itself or all of them together with the earlier rows stay below it.
   */
  lemma {:induction false} AdminRefundAgrees(db: Db, ls: seq<Label>, order: string, p: Captured)
    requires AdminRefunds(ls, order, p) && order in db.orders
    requires LastAmount(db, ls).Some? && StoredTotal(db.refunds, p.intent) >= 0
    ensures var last, stored := Run(db, ls), StoredTotal(db.refunds, p.intent);
            && order in last.orders
            && ((last.orders[order].financial == FullyRefunded
                 <==> StoredTotal(last.refunds, p.intent) >= p.amountCents)
                <==> LastAmount(db, ls).value >= p.amountCents || stored + AdminTotal(db, ls) < p.amountCents)
  {
    AdminRun(db, ls, order, p);
  }

  /** One paid order of 1000 cents. */
  const ONE_PAID := EMPTY.(orders := map["o" := Order([], OrderPaid, FinPaid, 1000, 0, 0, Some("pi"), true)],
                           payments := [Payment("pi", "o", Succeeded, 1000, 0)])

  /** Two halves refunded one after the other leave a fully refunded order PARTIALLY_REFUNDED. */
  lemma {:induction false} TwoHalfRefunds()
    ensures Inv(ONE_PAID)
    ensures var first := CommitAdminRefund(ONE_PAID, "o", Captured("pi", 1000), 500, "a");
            && first.Some?
            && var second := CommitAdminRefund(first.value, "o", Captured("pi", 1000), 500, "b");
            && second.Some?
            && StoredTotal(second.value.refunds, "pi") == 1000
            && second.value.orders["o"].financial == PartiallyRefunded
  {
    hide Conserved;
    var first := CommitAdminRefund(ONE_PAID, "o", Captured("pi", 1000), 500, "a").value;
    var a, b := Refund("o", "pi", 500, Some("a")), Refund("o", "pi", 500, Some("b"));
    StoredTotalSnoc([], a, "pi");
    StoredTotalSnoc([a], b, "pi");
    assert [] + [a] == [a] && first.refunds == [a];
    assert !RefundExists([a], "b") by { assert "a"[0] != "b"[0]; }
    ReachableInvEmpty();
  }

  lemma {:induction false} ReachableInvEmpty()
    ensures Conserved(EMPTY.ledger)
  {
  }
}
