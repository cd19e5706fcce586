/**
 Checkout: re-price the cart from live variants, number and store a DRAFT order, open
 the payment session, then confirm the order or delete it. Other checkouts may run
 between these steps.
 */
module Checkout {
  import opened Text
  import opened Fees

  datatype Variant = Variant(available: bool, priceCents: nat)

  datatype CartItem = CartItem(variant: Option<Variant>, quantity: nat)

  datatype Cart = Cart(converted: bool, items: seq<CartItem>)

  datatype Line = Line(quantity: nat, unitPriceCents: nat, totalCents: nat)

  datatype OrderStatus = DRAFT | PENDING

  datatype Order = Order(id: nat, number: string, createdAt: nat, status: OrderStatus, lines: seq<Line>,
                         subtotalCents: nat, totalCents: nat, applicationFeeCents: nat)

  /** Orders in order of creation. */
  datatype State = State(orders: seq<Order>, nextId: nat)

  const EMPTY := State([], 0)

  datatype Error =
    | StripeUnconfigured
    | StoreNotFound
    | CartNotFound
    | AlreadyCheckedOut
    | CartEmpty
    | ItemUnavailable
    | NumberTaken
    | SessionFailed

  datatype Result = Placed(id: nat, number: string) | Failed(error: Error)

  // ----- Pricing --------------------------------------------------------------------------

  predicate Sellable(it: CartItem) {
    it.variant.Some? && it.variant.value.available
  }

  predicate AllSellable(items: seq<CartItem>) {
    forall i :: 0 <= i < |items| ==> Sellable(items[i])
  }

  function LineOf(it: CartItem): Line
    requires Sellable(it)
  {
    var price := it.variant.value.priceCents;
    Line(it.quantity, price, price * it.quantity)
  }

  function LinesOf(items: seq<CartItem>): seq<Line>
    requires AllSellable(items)
  {
    seq(|items|, i requires 0 <= i < |items| => LineOf(items[i]))
  }

  function Subtotal(lines: seq<Line>): nat {
    if lines == [] then 0 else Subtotal(lines[..|lines| - 1]) + lines[|lines| - 1].totalCents
  }

  function FeeFor(subtotal: nat, connected: bool, bps: int): nat {
    if connected then PlatformFeeCents(subtotal, bps) else 0
  }

  // ----- Numbering ------------------------------------------------------------------------

  /** The number of the first order. */
  const FIRST := 1001

  /** `parseInt(number, 10) || 1000`. */
  function NumberValue(number: string): nat {
    var d := LeadingDigits(number);
    if d == "" || DigitsValue(d) == 0 then 1000 else DigitsValue(d)
  }

  lemma {:induction false} NumberRoundTrip(n: nat)
    requires n > 0
    ensures NumberValue(Digits(n)) == n
  {
    LeadingDigitsStop(Digits(n), "");
    assert Digits(n) + "" == Digits(n);
    DigitsRoundTrip(n);
  }

  /** What the query for the newest order may answer: any order with the latest creation time. */
  predicate Newest(orders: seq<Order>, last: nat) {
    orders == []
    || (last < |orders| && forall k :: 0 <= k < |orders| ==> orders[k].createdAt <= orders[last].createdAt)
  }

  /** One more than the newest order's number, starting from 1001. */
  function NextNumber(orders: seq<Order>, last: nat): string
    requires Newest(orders, last)
  {
    if orders == [] then Digits(FIRST) else Digits(NumberValue(orders[last].number) + 1)
  }

  predicate Used(orders: seq<Order>, number: string) {
    exists k | 0 <= k < |orders| :: orders[k].number == number
  }

  // ----- Steps ----------------------------------------------------------------------------

  datatype Label =
    | Place(lines: seq<Line>, connected: bool, bps: int, at: nat, last: nat)
    | Confirm(confirmed: nat)
    | Rollback(deleted: nat)

  /** The insert goes through: the number is not taken. */
  predicate Accepted(s: State, l: Label) {
    l.Place? && Newest(s.orders, l.last) && !Used(s.orders, NextNumber(s.orders, l.last))
  }

  function NewOrder(s: State, l: Label): Order
    requires l.Place? && Newest(s.orders, l.last)
  {
    var subtotal := Subtotal(l.lines);
    Order(s.nextId, NextNumber(s.orders, l.last), l.at, DRAFT, l.lines, subtotal, subtotal,
          FeeFor(subtotal, l.connected, l.bps))
  }

  function Without(orders: seq<Order>, id: nat): seq<Order> {
    if orders == [] then []
    else
      var n := |orders| - 1;
      if orders[n].id == id then Without(orders[..n], id) else Without(orders[..n], id) + [orders[n]]
  }

  function Confirmed(o: Order, id: nat): Order {
    if o.id == id then o.(status := PENDING) else o
  }

  function WithPending(orders: seq<Order>, id: nat): seq<Order> {
    seq(|orders|, i requires 0 <= i < |orders| => Confirmed(orders[i], id))
  }

  function Step(s: State, l: Label): State {
    match l
    case Place(_, _, _, _, _) =>
      if Accepted(s, l) then State(s.orders + [NewOrder(s, l)], s.nextId + 1) else s
    case Confirm(id) => s.(orders := WithPending(s.orders, id))
    case Rollback(id) => s.(orders := Without(s.orders, id))
  }

  function Run(s: State, ls: seq<Label>): State
    decreases |ls|
  {
    if ls == [] then s else Run(Step(s, ls[0]), ls[1..])
  }

  // ----- What every run keeps --------------------------------------------------------------

  /** A numeral from 1001 up. */
  ghost predicate WellNumbered(o: Order) {
    NumberValue(o.number) >= FIRST && o.number == Digits(NumberValue(o.number))
  }

  /** The total is what the lines add up to, and the fee is a part of it. */
  ghost predicate Priced(o: Order) {
    o.totalCents == o.subtotalCents == Subtotal(o.lines) && o.applicationFeeCents <= o.totalCents
  }

  ghost predicate Sound(o: Order) {
    WellNumbered(o) && Priced(o)
  }

  /** Ids grow in the order of the inserts, and numbers differ. */
  ghost predicate Apart(o: Order, p: Order) {
    o.id < p.id && o.number != p.number
  }

  ghost predicate AllApart(orders: seq<Order>) {
    forall i, j :: 0 <= i < j < |orders| ==> Apart(orders[i], orders[j])
  }

  ghost predicate AllSound(orders: seq<Order>, nextId: nat) {
    forall i :: 0 <= i < |orders| ==> Sound(orders[i]) && orders[i].id < nextId
  }

  ghost predicate Inv(s: State) {
    AllApart(s.orders) && AllSound(s.orders, s.nextId)
  }

  /** The rate is configured between 0 and 10000 basis points. */
  predicate RateOk(l: Label) {
    l.Place? ==> l.bps <= 10000
  }

  lemma {:induction false} WithoutNone(id: nat)
    ensures Without([], id) == []
  {
  }

  lemma {:induction false} WithoutSnoc(orders: seq<Order>, i: nat, id: nat)
    requires i < |orders|
    ensures Without(orders[..i + 1], id)
         == Without(orders[..i], id) + if orders[i].id == id then [] else [orders[i]]
  {
    assert orders[..i + 1][..i] == orders[..i];
  }

  lemma {:induction false} WithoutMembers(orders: seq<Order>, id: nat)
    ensures forall o :: o in Without(orders, id) <==> o in orders && o.id != id
  {
    if orders != [] {
      var n := |orders| - 1;
      WithoutMembers(orders[..n], id);
      assert orders == orders[..n] + [orders[n]];
    }
  }

  ghost predicate Pairwise(orders: seq<Order>, between: (Order, Order) -> bool) {
    forall i, j :: 0 <= i < j < |orders| ==> between(orders[i], orders[j])
  }

  lemma {:induction false} PairwiseAppend(orders: seq<Order>, o: Order, between: (Order, Order) -> bool)
    requires Pairwise(orders, between) && forall p :: p in orders ==> between(p, o)
    ensures Pairwise(orders + [o], between)
  {
    var all := orders + [o];
    forall i, j | 0 <= i < j < |all| ensures between(all[i], all[j]) {
      assert all[i] == orders[i] && orders[i] in orders;
    }
  }

  /** Leaving orders out keeps whatever holds between every two of them. */
  lemma {:induction false} WithoutPairs(orders: seq<Order>, id: nat, between: (Order, Order) -> bool)
    requires Pairwise(orders, between)
    ensures Pairwise(Without(orders, id), between)
  {
    if orders != [] {
      var n := |orders| - 1;
      WithoutPairs(orders[..n], id, between);
      WithoutMembers(orders[..n], id);
      forall p | p in Without(orders[..n], id) ensures between(p, orders[n]) {
        var k :| 0 <= k < n && orders[..n][k] == p;
        assert orders[k] == p;
      }
      PairwiseAppend(Without(orders[..n], id), orders[n], between);
    }
  }

  lemma {:induction false} WithoutApart(orders: seq<Order>, id: nat)
    requires AllApart(orders)
    ensures AllApart(Without(orders, id))
  {
    var between := (o: Order, p: Order) => o.id < p.id && o.number != p.number;
    assert Pairwise(orders, between);
    WithoutPairs(orders, id, between);
  }

  lemma {:induction false} NextIsNumeral(s: State, last: nat)
    requires Inv(s) && Newest(s.orders, last)
    ensures var n := if s.orders == [] then FIRST else NumberValue(s.orders[last].number) + 1;
            n >= FIRST && NextNumber(s.orders, last) == Digits(n) && NumberValue(NextNumber(s.orders, last)) == n
  {
    assert s.orders != [] ==> Sound(s.orders[last]);
    NumberRoundTrip(if s.orders == [] then FIRST else NumberValue(s.orders[last].number) + 1);
  }

  lemma {:induction false} PlaceKeepsInv(s: State, l: Label)
    requires Inv(s) && RateOk(l) && Accepted(s, l)
    ensures Inv(Step(s, l))
  {
    hide NumberValue, Digits, Subtotal, PlatformFeeCents;
    var o := NewOrder(s, l);
    NextIsNumeral(s, l.last);
    FeeWithinSubtotal(Subtotal(l.lines), l.bps);
    assert Sound(o);
    assert forall i :: 0 <= i < |s.orders| ==> s.orders[i].number != o.number;
    hide Sound, NextNumber, NewOrder;
  }

  lemma {:induction false} StepKeepsInv(s: State, l: Label)
    requires Inv(s) && RateOk(l)
    ensures Inv(Step(s, l))
  {
    match l {
      case Place(_, _, _, _, _) => if Accepted(s, l) { PlaceKeepsInv(s, l); }
      case Confirm(_) =>
      case Rollback(id) =>
        WithoutApart(s.orders, id);
        WithoutMembers(s.orders, id);
    }
    hide NumberValue, Digits, NextNumber, Subtotal, Without, Accepted, NewOrder;
  }

  lemma {:induction false} RunKeepsInv(s: State, ls: seq<Label>)
    requires Inv(s) && forall k :: 0 <= k < |ls| ==> RateOk(ls[k])
    ensures Inv(Run(s, ls))
    decreases |ls|
  {
    if ls != [] {
      StepKeepsInv(s, ls[0]);
      hide Step, Inv;
      RunKeepsInv(Step(s, ls[0]), ls[1..]);
    }
  }

  /**
   However checkouts, confirmations and rollbacks interleave, no two stored orders share a
   number, and every stored order's total is the sum of its lines and covers its fee.
   */
  lemma {:induction false} OrdersSound(ls: seq<Label>, i: nat, j: nat)
    requires forall k :: 0 <= k < |ls| ==> RateOk(ls[k])
    requires i < j < |Run(EMPTY, ls).orders|
    ensures var orders := Run(EMPTY, ls).orders;
            orders[i].number != orders[j].number && Priced(orders[i]) && Priced(orders[j])
  {
    assert Inv(EMPTY);
    RunKeepsInv(EMPTY, ls);
    hide Run, Priced, WellNumbered;
  }

  // ----- When every placement gets a number ---------------------------------------------------

  /** Whichever was not created before the other has the higher number; so they were not created together. */
  predicate Ranked(o: Order, p: Order) {
    && (o.createdAt <= p.createdAt ==> NumberValue(o.number) < NumberValue(p.number))
    && (p.createdAt <= o.createdAt ==> NumberValue(p.number) < NumberValue(o.number))
  }

  /** Numbers and creation times grow together. */
  ghost predicate InStep(orders: seq<Order>) {
    forall i, j :: 0 <= i < j < |orders| ==> Ranked(orders[i], orders[j])
  }

  predicate After(orders: seq<Order>, at: nat) {
    forall k :: 0 <= k < |orders| ==> orders[k].createdAt < at
  }

  /** An order is placed at a configured rate, and later than all others. */
  predicate Later(s: State, l: Label) {
    l.Place? ==> l.bps <= 10000 && After(s.orders, l.at)
  }

  ghost predicate LaterRun(s: State, ls: seq<Label>)
    decreases |ls|
  {
    ls == [] || (Later(s, ls[0]) && LaterRun(Step(s, ls[0]), ls[1..]))
  }

  /** In step, the newest order is the only one of its time and has the highest number, so the next is free. */
  lemma {:induction false} NextIsFree(s: State, last: nat)
    requires Inv(s) && InStep(s.orders) && Newest(s.orders, last)
    ensures !Used(s.orders, NextNumber(s.orders, last))
    ensures forall i :: 0 <= i < |s.orders| ==>
              NumberValue(s.orders[i].number) < NumberValue(NextNumber(s.orders, last))
  {
    NextIsNumeral(s, last);
    hide NumberValue, Digits, NextNumber, Inv;
    forall i | 0 <= i < |s.orders| && i != last
      ensures NumberValue(s.orders[i].number) < NumberValue(s.orders[last].number)
    {
      assert if i < last then Ranked(s.orders[i], s.orders[last]) else Ranked(s.orders[last], s.orders[i]);
    }
  }

  lemma {:induction false} WithoutInStep(orders: seq<Order>, id: nat)
    requires InStep(orders)
    ensures InStep(Without(orders, id))
  {
    hide Ranked;
    var between := (o: Order, p: Order) => Ranked(o, p);
    assert Pairwise(orders, between);
    WithoutPairs(orders, id, between);
    assert forall i, j :: 0 <= i < j < |Without(orders, id)| ==>
             between(Without(orders, id)[i], Without(orders, id)[j]);
  }

  lemma {:induction false} StepKeepsInStep(s: State, l: Label)
    requires Inv(s) && InStep(s.orders) && Later(s, l)
    ensures InStep(Step(s, l).orders)
  {
    match l {
      case Place(_, _, _, _, last) => if Newest(s.orders, last) { NextIsFree(s, last); }
      case Confirm(_) =>
      case Rollback(id) => WithoutInStep(s.orders, id);
    }
    hide NumberValue, Digits, NextNumber, Subtotal, Without, Inv, Used;
  }

  lemma {:induction false} RunKeepsInStep(s: State, ls: seq<Label>)
    requires Inv(s) && InStep(s.orders) && LaterRun(s, ls)
    ensures Inv(Run(s, ls)) && InStep(Run(s, ls).orders)
    decreases |ls|
  {
    if ls != [] {
      StepKeepsInv(s, ls[0]);
      StepKeepsInStep(s, ls[0]);
      hide Step, Inv, InStep, Later;
      RunKeepsInStep(Step(s, ls[0]), ls[1..]);
    }
  }

  /**
   From orders whose numbers and creation times grow together, when each order is placed
   later than all others, they keep doing so and no checkout fails for its number.
   */
  lemma {:induction false} NumbersNeverRunOut(s: State, ls: seq<Label>, l: Label)
    requires Inv(s) && InStep(s.orders) && LaterRun(s, ls)
    requires l.Place? && Newest(Run(s, ls).orders, l.last)
    ensures InStep(Run(s, ls).orders) && Accepted(Run(s, ls), l)
  {
    RunKeepsInStep(s, ls);
    NextIsFree(Run(s, ls), l.last);
    hide Run, Inv, InStep, NextNumber, Used;
  }

  /** A placement, later than all others, that fails for its number. */
  predicate Refused(s: State, l: Label) {
    l.Place? && Later(s, l) && Newest(s.orders, l.last) && !Accepted(s, l)
  }

  ghost predicate RefusedAfter(s: State, ls: seq<Label>, l: Label) {
    LaterRun(s, ls) && Refused(Run(s, ls), l)
  }

  lemma {:induction false} RunCons(s: State, l: Label, ls: seq<Label>)
    ensures Run(s, [l] + ls) == Run(Step(s, l), ls)
  {
    assert ([l] + ls)[1..] == ls;
  }

  lemma {:induction false} RefusedBefore(s: State, first: Label, ls: seq<Label>, l: Label)
    requires Later(s, first) && RefusedAfter(Step(s, first), ls, l)
    ensures RefusedAfter(s, [first] + ls, l)
  {
    RunCons(s, first, ls);
    assert ([first] + ls)[1..] == ls;
    hide Step, Later, Refused, Run;
  }

  function AfterAll(orders: seq<Order>): (at: nat)
    ensures After(orders, at)
  {
    if orders == [] then 0
    else
      var at := AfterAll(orders[1..]);
      assert forall k :: 1 <= k < |orders| ==> orders[k] == orders[1..][k - 1];
      if orders[0].createdAt < at then at else orders[0].createdAt + 1
  }

  lemma {:induction false} AcceptedAppends(s: State, l: Label)
    requires Accepted(s, l)
    ensures Step(s, l).orders == s.orders + [NewOrder(s, l)] && NewOrder(s, l).id == s.nextId
  {
  }

  /** While a higher number than the newest order's exists, each placement comes one closer to it. */
  lemma {:induction false} GapCloses(s: State, last: nat, k: nat) returns (ls: seq<Label>, l: Label)
    requires Inv(s) && k < |s.orders| && Newest(s.orders, last)
    requires NumberValue(s.orders[last].number) < NumberValue(s.orders[k].number)
    ensures RefusedAfter(s, ls, l)
    decreases NumberValue(s.orders[k].number) - NumberValue(s.orders[last].number)
  {
    var place := Place([], false, 0, AfterAll(s.orders), last);
    NextIsNumeral(s, last);
    if Used(s.orders, NextNumber(s.orders, last)) {
      ls, l := [], place;
    } else {
      var t, n := Step(s, place), |s.orders|;
      StepKeepsInv(s, place);
      AcceptedAppends(s, place);
      assert s.orders[k].number != NextNumber(s.orders, last);
      assert WellNumbered(s.orders[k]);
      hide NumberValue, Digits, NextNumber, AllApart, Priced, Used;
      assert t.orders[k] == s.orders[k] && t.orders[n].createdAt == place.at;
      assert NumberValue(t.orders[n].number) == NumberValue(s.orders[last].number) + 1;
      hide Step, Inv;
      ls, l := GapCloses(t, n, k);
      RefusedBefore(s, place, ls, l);
      ls := [place] + ls;
    }
  }

  lemma {:induction false} WithoutShorter(orders: seq<Order>, k: nat)
    requires k < |orders|
    ensures |Without(orders, orders[k].id)| < |orders|
  {
    var n := |orders| - 1;
    WithoutNoLonger(orders[..n], orders[k].id);
    if k < n {
      WithoutShorter(orders[..n], k);
    }
  }

  lemma {:induction false} WithoutNoLonger(orders: seq<Order>, id: nat)
    ensures |Without(orders, id)| <= |orders|
  {
    if orders != [] {
      WithoutNoLonger(orders[..|orders| - 1], id);
    }
  }

  /** Once all newer orders are rolled back, the one with the lower number is the newest. */
  lemma {:induction false} CollisionAhead(s: State, i: nat, j: nat) returns (ls: seq<Label>, l: Label)
    requires Inv(s) && i < |s.orders| && j < |s.orders|
    requires s.orders[i].createdAt <= s.orders[j].createdAt
    requires NumberValue(s.orders[j].number) < NumberValue(s.orders[i].number)
    ensures RefusedAfter(s, ls, l)
    decreases |s.orders|
  {
    if Newest(s.orders, j) {
      ls, l := GapCloses(s, j, i);
    } else {
      var k :| 0 <= k < |s.orders| && s.orders[k].createdAt > s.orders[j].createdAt;
      var t := Step(s, Rollback(s.orders[k].id));
      StepKeepsInv(s, Rollback(s.orders[k].id));
      WithoutShorter(s.orders, k);
      var a := StillThere(s, i, k);
      var b := StillThere(s, j, k);
      hide NumberValue, Inv, Without;
      ls, l := CollisionAhead(t, a, b);
      RefusedBefore(s, Rollback(s.orders[k].id), ls, l);
      ls := [Rollback(s.orders[k].id)] + ls;
    }
  }

  lemma {:induction false} StillThere(s: State, i: nat, k: nat) returns (a: nat)
    requires Inv(s) && i < |s.orders| && k < |s.orders| && i != k
    ensures var after := Without(s.orders, s.orders[k].id);
            a < |after| && after[a] == s.orders[i]
  {
    WithoutMembers(s.orders, s.orders[k].id);
    assert if i < k then Apart(s.orders[i], s.orders[k]) else Apart(s.orders[k], s.orders[i]);
    assert s.orders[i] in Without(s.orders, s.orders[k].id);
    a :| a < |Without(s.orders, s.orders[k].id)| && Without(s.orders, s.orders[k].id)[a] == s.orders[i];
  }

  lemma {:induction false} InStepAccepts(s: State, ls: seq<Label>, l: Label)
    requires Inv(s) && InStep(s.orders)
    ensures !RefusedAfter(s, ls, l)
  {
    hide Run, Step, Inv, InStep, Newest, NextNumber, Used;
    if RefusedAfter(s, ls, l) {
      NumbersNeverRunOut(s, ls, l);
    }
  }

  lemma {:induction false} OutOfStepRefuses(s: State) returns (ls: seq<Label>, l: Label)
    requires Inv(s) && !InStep(s.orders)
    ensures RefusedAfter(s, ls, l)
  {
    hide NumberValue, Digits, RefusedAfter, Priced;
    var i, j :| 0 <= i < j < |s.orders| && !Ranked(s.orders[i], s.orders[j]);
    assert Apart(s.orders[i], s.orders[j]);
    assert Sound(s.orders[i]) && Sound(s.orders[j]);
    if s.orders[i].createdAt <= s.orders[j].createdAt
       && NumberValue(s.orders[j].number) < NumberValue(s.orders[i].number) {
      ls, l := CollisionAhead(s, i, j);
    } else {
      ls, l := CollisionAhead(s, j, i);
    }
  }

  /**
   A checkout fails for its number in some run of later placements, confirmations and
   rollbacks if and only if some two stored orders are out of step: one that was not
   created before the other has no higher number.
   */
  lemma {:induction false} NumbersRunOutIff(s: State)
    requires Inv(s)
    ensures (exists ls, l :: RefusedAfter(s, ls, l)) <==> !InStep(s.orders)
  {
    hide *;
    if InStep(s.orders) {
      forall ls, l ensures !RefusedAfter(s, ls, l) {
        InStepAccepts(s, ls, l);
      }
    } else {
      var ls, l := OutOfStepRefuses(s);
    }
  }

  /** Three orders of one moment, the second rolled back, and one placed after the first. */
  const TIED := [Place([], false, 0, 0, 0), Place([], false, 0, 0, 0), Place([], false, 0, 0, 1), Rollback(1),
                 Place([], false, 0, 1, 0)]

  function Numbered(id: nat, n: nat, at: nat): Order {
    Order(id, Digits(n), at, DRAFT, [], 0, 0, 0)
  }

  lemma {:induction false} PlaceNumbered(s: State, at: nat, last: nat, n: nat)
    requires Newest(s.orders, last) && n >= FIRST
    requires if s.orders == [] then n == FIRST else s.orders[last].number == Digits(n - 1)
    ensures !Used(s.orders, Digits(n)) ==>
              Step(s, Place([], false, 0, at, last)) == State(s.orders + [Numbered(s.nextId, n, at)], s.nextId + 1)
    ensures Used(s.orders, Digits(n)) ==>
              forall l: Label :: l.Place? && l.at == at && l.last == last ==> Step(s, l) == s
  {
    NumberRoundTrip(n - 1);
    assert NextNumber(s.orders, last) == Digits(n);
    hide NumberValue, Digits;
  }

  lemma {:induction false} NumeralsDiffer(m: nat, n: nat)
    requires 0 < m < n
    ensures Digits(m) != Digits(n)
  {
    NumberRoundTrip(m);
    NumberRoundTrip(n);
  }

  /** The step appends the numbered order. */
  lemma {:induction false} PlaceFree(s: State, at: nat, last: nat, n: nat, after: seq<Order>)
    requires Newest(s.orders, last) && n >= FIRST && !Used(s.orders, Digits(n))
    requires if s.orders == [] then n == FIRST else s.orders[last].number == Digits(n - 1)
    requires after == s.orders + [Numbered(s.nextId, n, at)]
    ensures Step(s, Place([], false, 0, at, last)) == State(after, s.nextId + 1)
  {
    PlaceNumbered(s, at, last, n);
    hide Step, Digits, Numbered;
  }

  lemma {:induction false} FourthTied(a: Order, b: Order, c: Order)
    requires a.id == 0 && b.id == 1 && c.id == 2
    ensures Step(State([a, b, c], 3), TIED[3]) == State([a, c], 3)
  {
    assert [a, b, c] == [a, b] + [c] && [a, b] == [a] + [b];
    assert [a, b, c][..2] == [a, b] && [a, b][..1] == [a] && [a][..0] == [];
    assert Without([a], 1) == [a];
    assert Without([a, b], 1) == [a];
  }

  /** The state that the tied run ends in. */
  lemma {:induction false} TiedRun()
    ensures Run(EMPTY, TIED).orders == [Numbered(0, FIRST, 0), Numbered(2, FIRST + 2, 0), Numbered(3, FIRST + 1, 1)]
  {
    hide Digits, Step;
    var a, b, c := Numbered(0, FIRST, 0), Numbered(1, FIRST + 1, 0), Numbered(2, FIRST + 2, 0);
    var d := Numbered(3, FIRST + 1, 1);
    NumeralsDiffer(FIRST, FIRST + 1);
    NumeralsDiffer(FIRST, FIRST + 2);
    NumeralsDiffer(FIRST + 1, FIRST + 2);
    PlaceFree(EMPTY, 0, 0, FIRST, [a]);
    PlaceFree(State([a], 1), 0, 0, FIRST + 1, [a, b]);
    PlaceFree(State([a, b], 2), 0, 1, FIRST + 2, [a, b, c]);
    FourthTied(a, b, c);
    PlaceFree(State([a, c], 3), 1, 0, FIRST + 1, [a, c, d]);
    hide Numbered, Newest, Used;
    assert TIED == [TIED[0]] + ([TIED[1]] + ([TIED[2]] + ([TIED[3]] + ([TIED[4]] + []))));
    RunCons(EMPTY, TIED[0], [TIED[1]] + ([TIED[2]] + ([TIED[3]] + ([TIED[4]] + []))));
    RunCons(Step(EMPTY, TIED[0]), TIED[1], [TIED[2]] + ([TIED[3]] + ([TIED[4]] + [])));
    var s := Step(Step(EMPTY, TIED[0]), TIED[1]);
    RunCons(s, TIED[2], [TIED[3]] + ([TIED[4]] + []));
    RunCons(Step(s, TIED[2]), TIED[3], [TIED[4]] + []);
    RunCons(Step(Step(s, TIED[2]), TIED[3]), TIED[4], []);
  }

  /**
   Orders with equal creation times can stop a store for good: after the tied run the
   newest order is number 1002 while 1003 exists, and every later checkout fails.
   */
  lemma {:induction false} TiesStopCheckout(s: State, ls: seq<Label>)
    requires s.orders == [Numbered(0, FIRST, 0), Numbered(2, FIRST + 2, 0), Numbered(3, FIRST + 1, 1)]
    requires forall k :: 0 <= k < |ls| ==> ls[k].Place?
    ensures Run(s, ls).orders == s.orders
    decreases |ls|
  {
    if ls != [] {
      var l := ls[0];
      if Newest(s.orders, l.last) {
        assert s.orders[2].createdAt <= s.orders[l.last].createdAt;
        assert s.orders[1].number == Digits(FIRST + 2);
        PlaceNumbered(s, l.at, l.last, FIRST + 2);
      }
      assert Step(s, l) == s;
      TiesStopCheckout(s, ls[1..]);
    }
  }

  // ----- A number read too early ------------------------------------------------------------------

  predicate HasOrder(orders: seq<Order>, id: nat, number: string) {
    exists k | 0 <= k < |orders| :: orders[k].id == id && orders[k].number == number
  }

  predicate RolledBack(ls: seq<Label>, id: nat) {
    exists k | 0 <= k < |ls| :: ls[k] == Rollback(id)
  }

  /** Some step of the run places the order under the number, and no later step rolls it back. */
  ghost predicate PlacedAndKept(s: State, ls: seq<Label>, id: nat, number: string)
    decreases |ls|
  {
    ls != []
    && ((Accepted(s, ls[0]) && s.nextId == id && NextNumber(s.orders, ls[0].last) == number && !RolledBack(ls[1..], id))
        || PlacedAndKept(Step(s, ls[0]), ls[1..], id, number))
  }

  lemma {:induction false} StepOrders(s: State, l: Label, id: nat, number: string)
    ensures HasOrder(Step(s, l).orders, id, number) <==>
              || (HasOrder(s.orders, id, number) && l != Rollback(id))
              || (Accepted(s, l) && s.nextId == id && NextNumber(s.orders, l.last) == number)
  {
    var after := Step(s, l).orders;
    hide NumberValue, Digits, Subtotal, Used;
    match l {
      case Place(_, _, _, _, _) =>
        if Accepted(s, l) {
          assert after == s.orders + [NewOrder(s, l)];
          assert after[|s.orders|] == NewOrder(s, l);
          assert forall k :: 0 <= k < |s.orders| ==> after[k] == s.orders[k];
        }
      case Confirm(_) =>
        assert forall k :: 0 <= k < |s.orders| ==>
                 after[k].id == s.orders[k].id && after[k].number == s.orders[k].number;
      case Rollback(x) =>
        WithoutMembers(s.orders, x);
        if HasOrder(s.orders, id, number) && x != id {
          var k :| 0 <= k < |s.orders| && s.orders[k].id == id && s.orders[k].number == number;
          assert s.orders[k] in after;
        }
        if HasOrder(after, id, number) {
          var k :| 0 <= k < |after| && after[k].id == id && after[k].number == number;
          assert after[k] in s.orders;
        }
    }
  }

  lemma {:induction false} RolledBackCons(ls: seq<Label>, id: nat)
    requires ls != []
    ensures RolledBack(ls, id) <==> ls[0] == Rollback(id) || RolledBack(ls[1..], id)
  {
    if RolledBack(ls, id) && ls[0] != Rollback(id) {
      var k :| 0 <= k < |ls| && ls[k] == Rollback(id);
      assert ls[1..][k - 1] == ls[k];
    }
    if RolledBack(ls[1..], id) {
      var k :| 0 <= k < |ls| - 1 && ls[1..][k] == Rollback(id);
      assert ls[k + 1] == Rollback(id);
    }
  }

  /** The orders of a run are those it started with and those it placed, less those rolled back. */
  lemma {:induction false} OrdersOfRun(s: State, ls: seq<Label>, id: nat, number: string)
    ensures HasOrder(Run(s, ls).orders, id, number) <==>
              || (HasOrder(s.orders, id, number) && !RolledBack(ls, id))
              || PlacedAndKept(s, ls, id, number)
    decreases |ls|
  {
    if ls != [] {
      StepOrders(s, ls[0], id, number);
      RolledBackCons(ls, id);
      hide Step, HasOrder, RolledBack, Accepted, NextNumber;
      OrdersOfRun(Step(s, ls[0]), ls[1..], id, number);
    }
  }

  /**
   A number computed from an earlier state is taken after any steps in between if and only
   if one of them placed an order under it that none of the later ones rolled back.
   */
  lemma {:induction false} StaleNumberTaken(s: State, last: nat, ls: seq<Label>)
    requires Inv(s) && InStep(s.orders) && Newest(s.orders, last)
    ensures var number := NextNumber(s.orders, last);
            Used(Run(s, ls).orders, number) <==> exists id :: PlacedAndKept(s, ls, id, number)
  {
    NextIsFree(s, last);
    var number := NextNumber(s.orders, last);
    hide Run, NextNumber, PlacedAndKept, InStep, Inv;
    var orders := Run(s, ls).orders;
    if Used(orders, number) {
      var k :| 0 <= k < |orders| && orders[k].number == number;
      assert HasOrder(orders, orders[k].id, number);
      OrdersOfRun(s, ls, orders[k].id, number);
    }
    if id: nat :| PlacedAndKept(s, ls, id, number) {
      OrdersOfRun(s, ls, id, number);
    }
  }

  // ----- Rolling back -------------------------------------------------------------------------------

  /** Deleting the order just placed restores the orders, so a retry starts clean and can reuse the number. */
  lemma {:induction false} RollbackUndoesPlace(s: State, l: Label)
    requires Inv(s) && l.Place?
    ensures Step(Step(s, l), Rollback(s.nextId)).orders == s.orders
  {
    hide Sound, Apart, Accepted, NextNumber, Subtotal;
    WithoutAbsent(s.orders, s.nextId);
    if Accepted(s, l) {
      AcceptedAppends(s, l);
      WithoutLast(s.orders, Step(s, l).orders[|s.orders|]);
    }
    hide Without, Inv;
  }

  lemma {:induction false} WithoutLast(orders: seq<Order>, o: Order)
    ensures Without(orders + [o], o.id) == Without(orders, o.id)
  {
    assert (orders + [o])[..|orders|] == orders;
  }

  lemma {:induction false} WithoutAbsent(orders: seq<Order>, id: nat)
    requires forall i :: 0 <= i < |orders| ==> orders[i].id != id
    ensures Without(orders, id) == orders
  {
    if orders != [] { WithoutAbsent(orders[..|orders| - 1], id); }
  }

  // ----- The service ----------------------------------------------------------------------

  /** The first check before the order that refuses the checkout. */
  function Refusal(stripeConfigured: bool, storeFound: bool, cart: Option<Cart>): Option<Error> {
    if !stripeConfigured then Some(StripeUnconfigured)
    else if !storeFound then Some(StoreNotFound)
    else if cart.None? then Some(CartNotFound)
    else if cart.value.converted then Some(AlreadyCheckedOut)
    else if cart.value.items == [] then Some(CartEmpty)
    else if !AllSellable(cart.value.items) then Some(ItemUnavailable)
    else None
  }

  lemma {:induction false} PendingNew(s: State, l: Label)
    requires Inv(s) && Accepted(s, l)
    ensures Step(Step(s, l), Confirm(s.nextId)).orders == s.orders + [NewOrder(s, l).(status := PENDING)]
  {
    hide NextNumber, Used, Sound, Apart, Subtotal;
    var placed := Step(s, l).orders;
    assert forall i :: 0 <= i < |s.orders| ==> placed[i] == s.orders[i] && s.orders[i].id != s.nextId;
  }

  class CheckoutService {
    var orders: seq<Order>
    var nextId: nat

    ghost function Snapshot(): State
      reads this
    {
      State(orders, nextId)
    }

    ghost predicate Valid()
      reads this
    {
      Inv(Snapshot())
    }

    constructor ()
      ensures Snapshot() == EMPTY && Valid()
    {
      orders, nextId := [], 0;
    }

    /** The first unavailable item stops the re-pricing. */
    method PriceCart(items: seq<CartItem>) returns (lines: Option<seq<Line>>, subtotal: nat)
      ensures lines.Some? <==> AllSellable(items)
      ensures lines.Some? ==> lines.value == LinesOf(items) && subtotal == Subtotal(lines.value)
    {
      var priced: seq<Line> := [];
      subtotal := 0;
      lines := None;
      var i := 0;
      while i < |items|
        invariant 0 <= i <= |items| && AllSellable(items[..i])
        invariant priced == LinesOf(items[..i]) && subtotal == Subtotal(priced)
      {
        if !Sellable(items[i]) { return; }
        var line := LineOf(items[i]);
        assert (priced + [line])[..i] == priced;
        priced, subtotal := priced + [line], subtotal + line.totalCents;
        i := i + 1;
      }
      assert items[..i] == items;
      lines := Some(priced);
    }

    /** Insert the order under the next number; a number that is taken violates the unique index. */
    method Create(lines: seq<Line>, subtotal: nat, connected: bool, bps: int, now: nat, last: nat)
      returns (id: Option<nat>)
      requires Valid() && bps <= 10000 && subtotal == Subtotal(lines) && Newest(orders, last)
      modifies this
      ensures Valid()
      ensures id == if old(Used(orders, NextNumber(orders, last))) then None else Some(old(nextId))
      ensures Snapshot() == Step(old(Snapshot()), Place(lines, connected, bps, now, last))
    {
      StepKeepsInv(Snapshot(), Place(lines, connected, bps, now, last));
      hide Inv, NextNumber, FeeFor, Subtotal, Without, WithPending, Used;
      var number := NextNumber(orders, last);
      if Used(orders, number) {
        return None;
      }
      id := Some(nextId);
      var fee := FeeFor(subtotal, connected, bps);
      orders := orders + [Order(nextId, number, now, DRAFT, lines, subtotal, subtotal, fee)];
      nextId := nextId + 1;
    }

    method MarkPending(id: nat)
      requires Valid()
      modifies `orders
      ensures Valid()
      ensures Snapshot() == Step(old(Snapshot()), Confirm(id))
    {
      StepKeepsInv(Snapshot(), Confirm(id));
      hide Inv;
      var i := 0;
      while i < |orders|
        invariant 0 <= i <= |orders| == |old(orders)|
        invariant forall k :: 0 <= k < |orders| ==>
                    orders[k] == if k < i then Confirmed(old(orders)[k], id) else old(orders)[k]
      {
        if orders[i].id == id { orders := orders[i := orders[i].(status := PENDING)]; }
        i := i + 1;
      }
      assert orders == WithPending(old(orders), id);
    }

    method KeepOthers(id: nat) returns (kept: seq<Order>)
      ensures kept == Without(orders, id)
    {
      hide Without;
      kept := [];
      WithoutNone(id);
      var i := 0;
      while i < |orders|
        invariant 0 <= i <= |orders|
        invariant kept == Without(orders[..i], id)
      {
        WithoutSnoc(orders, i, id);
        if orders[i].id != id { kept := kept + [orders[i]]; }
        i := i + 1;
      }
      assert orders[..i] == orders;
    }

    method Delete(id: nat)
      requires Valid()
      modifies `orders
      ensures Valid()
      ensures Snapshot() == Step(old(Snapshot()), Rollback(id))
    {
      StepKeepsInv(Snapshot(), Rollback(id));
      hide Inv, Without;
      orders := KeepOthers(id);
    }

    /**
     A checkout with nothing in between either leaves one new PENDING order, priced from
     the live variants, or leaves the orders exactly as they were, with the first of its
     checks that failed as the reason.
     */
    method Checkout(stripeConfigured: bool, storeFound: bool, cart: Option<Cart>, connected: bool, bps: int,
                    now: nat, last: nat, sessionOpens: bool) returns (r: Result)
      requires Valid() && bps <= 10000 && Newest(orders, last)
      modifies this
      ensures Valid()
      ensures r.Failed? ==> orders == old(orders)
      ensures var reason := Refusal(stripeConfigured, storeFound, cart);
              if reason.Some? then r == Failed(reason.value)
              else if old(Used(orders, NextNumber(orders, last))) then r == Failed(NumberTaken)
              else if !sessionOpens then r == Failed(SessionFailed)
              else r == Placed(old(nextId), old(NextNumber(orders, last)))
      ensures r.Placed? ==>
                && AllSellable(cart.value.items)
                && var l := Place(LinesOf(cart.value.items), connected, bps, now, last);
                   orders == old(orders) + [NewOrder(old(Snapshot()), l).(status := PENDING)]
    {
      if !stripeConfigured { return Failed(StripeUnconfigured); }
      if !storeFound { return Failed(StoreNotFound); }
      if cart.None? { return Failed(CartNotFound); }
      if cart.value.converted { return Failed(AlreadyCheckedOut); }
      if |cart.value.items| == 0 { return Failed(CartEmpty); }
      var lines, subtotal := PriceCart(cart.value.items);
      if lines.None? { return Failed(ItemUnavailable); }
      hide NumberValue, Digits, AllSound, AllApart, Subtotal, Used, NextNumber;
      ghost var l := Place(lines.value, connected, bps, now, last);
      var number := NextNumber(orders, last);
      var id := Create(lines.value, subtotal, connected, bps, now, last);
      if id.None? { return Failed(NumberTaken); }
      if sessionOpens {
        MarkPending(id.value);
        PendingNew(old(Snapshot()), l);
        r := Placed(id.value, number);
      } else {
        Delete(id.value);
        RollbackUndoesPlace(old(Snapshot()), l);
        r := Failed(SessionFailed);
      }
    }
  }
}
