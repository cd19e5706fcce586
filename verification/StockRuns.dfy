/**
 On-hand levels over whole runs: they stay non-negative whatever is asked for if and only
 if no query answer overstates an item and no check sees more than there is.
 */
module StockRuns {
  import opened Text
  import opened Stock
  import opened Promises
  import opened Commerce
  import opened CommerceRuns

  predicate NonNegative(l: Ledger) {
    forall i :: 0 <= i < |l.items| ==> l.items[i].onHand >= 0
  }

  /** The order whose stock pass the step commits, if it commits one. */
  function PassOf(db: Db, l: Label): (o: Option<string>)
    ensures o.Some? ==> Sells(db, l, o.value)
  {
    if l.Deliver? && l.ev.CheckoutCompleted? && l.ev.order.Some? && Sells(db, l, l.ev.order.value) then l.ev.order
    else None
  }

  function LevelNow(db: Db, l: Label): int
    requires l.AdjustStock?
  {
    var i := FindItem(db.ledger.items, l.adjusted, l.at);
    if i < |db.ledger.items| then db.ledger.items[i].onHand else 0
  }

  /**
   No answer of a committed pass overstates an item when its line sells, no check sees
   more than there is, and a correction, which is not checked, does not go below zero.
   */
  ghost predicate Honest(db: Db, l: Label) {
    match l
    case Deliver(_, ev, _, answers) =>
      var o := PassOf(db, l);
      o.Some? ==> AllCovered(db.ledger, db.orders[o.value].lines, answers, OrderRef(o.value))
    case AdjustStock(v, loc, delta, kind, seen) =>
      if kind == ADJUSTMENT then LevelNow(db, l) + delta >= 0
      else FindItem(db.ledger.items, v, loc) < |db.ledger.items| ==> seen <= LevelNow(db, l)
    case _ => true
  }

  /** The step leaves no level negative, whatever quantity one of its lines or what delta it had asked for. */
  ghost predicate Safe(db: Db, l: Label) {
    match l
    case Deliver(_, ev, _, answers) =>
      var o := PassOf(db, l);
      o.Some? ==> AllSafe(db.ledger, db.orders[o.value].lines, answers, OrderRef(o.value))
    case AdjustStock(v, loc, delta, kind, seen) =>
      if kind == ADJUSTMENT then AdjustSafe(db, l, delta) else forall d: int :: AdjustSafe(db, l, d)
    case _ => true
  }

  ghost predicate AdjustSafe(db: Db, l: Label, delta: int)
    requires l.AdjustStock?
  {
    var r := Adjust(db.ledger, l.adjusted, l.at, delta, l.kind, l.seen);
    r.Ok? ==> NonNegative(r.value)
  }

  ghost predicate HonestRun(db: Db, ls: seq<Label>)
    decreases |ls|
  {
    ls == [] || (Honest(db, ls[0]) && HonestRun(Step(db, ls[0]), ls[1..]))
  }

  ghost predicate SafeRun(db: Db, ls: seq<Label>)
    decreases |ls|
  {
    ls == [] || (Safe(db, ls[0]) && SafeRun(Step(db, ls[0]), ls[1..]))
  }

  lemma {:induction false} AdjustSafeIff(db: Db, l: Label)
    requires l.AdjustStock? && NonNegative(db.ledger)
    ensures Safe(db, l) <==> Honest(db, l)
    ensures Safe(db, l) ==> NonNegative(Step(db, l).ledger)
  {
    forall d: int | Adjust(db.ledger, l.adjusted, l.at, d, l.kind, l.seen).Ok?
      ensures AdjustSafe(db, l, d) <==> LevelNow(db, l) + d >= 0
    {
      AdjustLevel(db.ledger, l.adjusted, l.at, d, l.kind, l.seen);
      hide Adjust;
    }
    hide NonNegative;
    if !Honest(db, l) && l.kind != ADJUSTMENT {
      assert !AdjustSafe(db, l, -l.seen);
    }
    assert Safe(db, l) ==> AdjustSafe(db, l, l.delta);
  }

  lemma {:induction false} DeliverSafeIff(db: Db, l: Label)
    requires l.Deliver? && NonNegative(db.ledger)
    ensures Safe(db, l) <==> Honest(db, l)
    ensures Safe(db, l) ==> NonNegative(Step(db, l).ledger)
  {
    var o := PassOf(db, l);
    if o.Some? {
      var lines, ref := db.orders[o.value].lines, OrderRef(o.value);
      AllSafeIff(db.ledger, lines, l.answers, ref);
      if AllCovered(db.ledger, lines, l.answers, ref) {
        SellLinesCovered(db.ledger, lines, l.answers, ref);
      }
    }
    hide SellLines, ReadsOk, AllSafe, AllCovered, UpsertPaid, UpsertFailed, AddRefunds, Total, IntentTaken,
         ConversionTaken, ConvertCart, FindPayment;
  }

  lemma {:induction false} RefundKeeps(db: Db, l: Label)
    requires l.FinishRefund? && NonNegative(db.ledger)
    ensures NonNegative(Step(db, l).ledger)
  {
    if RefundPending(db, l.refund) && Targeted(db, l.refund, l.targets) && db.calls[l.refund].id in db.rmas {
      var id := db.calls[l.refund].id;
      RestockExact(db.ledger, db.rmas[id].lines, l.targets, ReturnRef(id));
    }
    hide Restock, TargetsOk, Amount, RefundExists;
  }

  lemma {:induction false} StepSafeIff(db: Db, l: Label)
    requires NonNegative(db.ledger)
    ensures Safe(db, l) <==> Honest(db, l)
    ensures Safe(db, l) ==> NonNegative(Step(db, l).ledger)
  {
    if l.AdjustStock? {
      AdjustSafeIff(db, l);
    } else if l.Deliver? {
      DeliverSafeIff(db, l);
    } else if l.FinishRefund? {
      RefundKeeps(db, l);
    }
    hide Process, CommitRefund, Adjust;
  }

  /**
   Along a run from non-negative levels, no level ever goes below zero, and none would
   have whatever quantity a line or whatever delta an adjustment had asked for instead,
   if and only if no answer overstates an item and no check sees more than there is.
   */
  lemma {:induction false} SafeRunIff(db: Db, ls: seq<Label>)
    requires NonNegative(db.ledger)
    ensures SafeRun(db, ls) <==> HonestRun(db, ls)
    ensures HonestRun(db, ls) ==> NonNegative(Run(db, ls).ledger)
    decreases |ls|
  {
    if ls != [] {
      StepSafeIff(db, ls[0]);
      hide Step, NonNegative, Safe, Honest;
      if Safe(db, ls[0]) {
        SafeRunIff(Step(db, ls[0]), ls[1..]);
      }
    }
  }

  // ----- Outdated answers ------------------------------------------------------------------

  const LAST_UNIT := Read([0], [1])

  const ONE_UNIT: seq<Line> := [Line(Some("v"), 1, 0)]

  function Paid(event: string, order: string): Label {
    Deliver(event, CheckoutCompleted(Some(order), None, None, 0, None), NoCrash, [LAST_UNIT])
  }

  /** Two paid orders whose queries both saw the last unit. */
  function TwoBuyers(): seq<Label> {
    [NewStock("v", "shelf", 1), PlaceOrder("a", ONE_UNIT, 0, 0, None), PlaceOrder("b", ONE_UNIT, 0, 0, None),
     Paid("evt1", "a"), Paid("evt2", "b")]
  }

  lemma {:induction false} SellsLastUnit(l: Ledger, ref: Ref)
    requires |l.items| == 1 && l.items[0].variant == "v"
    ensures ReadsOk(l.items, ONE_UNIT, [LAST_UNIT])
    ensures var after := SellLines(l, ONE_UNIT, [LAST_UNIT], ref);
            |after.items| == 1 && after.items[0] == l.items[0].(onHand := l.items[0].onHand - 1)
  {
    assert Greedy([1], 1) == [1] by { assert [1][1..] == []; }
    SellLevels(l, [0], [1], ref);
    assert [0][0] == 0;
    var next := SellVariant(l, LAST_UNIT, 1, ref);
    assert ONE_UNIT[1..] == [] && [LAST_UNIT][1..] == [];
    ReadsStayOk(l.items, next.items, ONE_UNIT, [LAST_UNIT]);
    assert SellLines(l, ONE_UNIT, [LAST_UNIT], ref) == SellLines(next, ONE_UNIT[1..], [LAST_UNIT][1..], ref);
  }

  /** A paid pass over a one-unit order whose query saw the last unit. */
  lemma {:induction false} PaidStep(db: Db, event: string, order: string)
    requires |db.ledger.items| == 1 && db.ledger.items[0].variant == "v"
    requires event !in db.done && order in db.orders
    requires db.orders[order].lines == ONE_UNIT && !AlreadyPaid(db.orders[order])
    ensures var next := Step(db, Paid(event, order));
            && next.orders == db.orders[order := next.orders[order]] && next.done == db.done + {event}
            && |next.ledger.items| == 1
            && next.ledger.items[0] == db.ledger.items[0].(onHand := db.ledger.items[0].onHand - 1)
  {
    SellsLastUnit(db.ledger, OrderRef(order));
    hide SellLines, ReadsOk;
  }

  /** One unit in stock and two orders for it. */
  lemma {:induction false} SetUp() returns (db: Db)
    ensures var ls := TwoBuyers();
            db == Step(Step(Step(EMPTY, ls[0]), ls[1]), ls[2])
    ensures |db.ledger.items| == 1 && db.ledger.items[0] == Item("v", "shelf", 1, 0) && db.done == {}
    ensures "a" in db.orders && db.orders["a"] == Order(ONE_UNIT, OrderPending, Unpaid, 0, 0, 0, None, false)
    ensures "b" in db.orders && db.orders["b"] == Order(ONE_UNIT, OrderPending, Unpaid, 0, 0, 0, None, false)
  {
    var ls := TwoBuyers();
    assert "a"[0] != "b"[0];
    var stocked := Step(EMPTY, ls[0]);
    assert stocked.ledger.items == [Item("v", "shelf", 1, 0)] && stocked.orders == map[];
    db := Step(Step(stocked, ls[1]), ls[2]);
  }

  /** The run is reachable, its ledger is exact, and the level is -1. */
  lemma {:induction false} TwoBuyersOversell()
    ensures var last := Run(EMPTY, TwoBuyers()).ledger;
            Conserved(last) && |last.items| == 1 && last.items[0].onHand == -1
  {
    var ls := TwoBuyers();
    ReachableInv(ls);
    assert ls == [ls[0]] + ([ls[1]] + ([ls[2]] + ([ls[3]] + ([ls[4]] + []))));
    var db := SetUp();
    hide Step, Conserved, TwoBuyers, Inv;
    RunCons(EMPTY, ls[0], [ls[1]] + ([ls[2]] + ([ls[3]] + ([ls[4]] + []))));
    RunCons(Step(EMPTY, ls[0]), ls[1], [ls[2]] + ([ls[3]] + ([ls[4]] + [])));
    RunCons(Step(Step(EMPTY, ls[0]), ls[1]), ls[2], [ls[3]] + ([ls[4]] + []));
    RunCons(db, ls[3], [ls[4]] + []);
    RunCons(Step(db, ls[3]), ls[4], []);
    assert "a"[0] != "b"[0] && "evt1"[3] != "evt2"[3];
    PaidStep(db, "evt1", "a");
    PaidStep(Step(db, Paid("evt1", "a")), "evt2", "b");
  }
}
