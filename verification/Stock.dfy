/**
 Stock levels and the append-only ledger behind them: inventory creation, manual
 adjustments, the greedy decrement of a paid order and the restock of a return.
 What a query answered is a parameter, so the levels a transaction decides on may be
 older than the levels it then changes.
 */
module Stock {
  import opened Text

  datatype MoveKind = RECEIVE | SALE | RETURN | ADJUSTMENT | RESERVATION | RELEASE | TRANSFER | EXTRACTION_SEED

  datatype Ref = Manual | OrderRef(id: string) | ReturnRef(id: string)

  datatype Item = Item(variant: string, location: string, onHand: int, reserved: int)

  /** A signed ledger entry for the inventory item with the given index. */
  datatype Move = Move(item: nat, kind: MoveKind, quantity: int, ref: Ref)

  /** The inventory item and stock movement tables; an item's id is its index. */
  datatype Ledger = Ledger(items: seq<Item>, moves: seq<Move>)

  /** Increment one item and write the matching movement. */
  function Post(l: Ledger, m: Move): Ledger
    requires m.item < |l.items|
  {
    Ledger(l.items[m.item := l.items[m.item].(onHand := l.items[m.item].onHand + m.quantity)], l.moves + [m])
  }

  function Booked(moves: seq<Move>, item: nat): int {
    if moves == [] then 0
    else
      var n := |moves| - 1;
      Booked(moves[..n], item) + if moves[n].item == item then moves[n].quantity else 0
  }

  /** Every on-hand level is the sum of the item's movements. */
  ghost predicate Conserved(l: Ledger) {
    && (forall i :: 0 <= i < |l.items| ==> l.items[i].onHand == Booked(l.moves, i))
    && (forall k :: 0 <= k < |l.moves| ==> l.moves[k].item < |l.items|)
  }

  lemma {:induction false} PostConserves(l: Ledger, m: Move)
    requires m.item < |l.items| && Conserved(l)
    ensures Conserved(Post(l, m))
  {
    assert (l.moves + [m])[..|l.moves|] == l.moves;
  }

  lemma {:induction false} NothingBooked(moves: seq<Move>, item: nat)
    requires forall k :: 0 <= k < |moves| ==> moves[k].item < item
    ensures Booked(moves, item) == 0
  {
    if moves != [] {
      NothingBooked(moves[..|moves| - 1], item);
    }
  }

  // ----- Inventory service -------------------------------------------------------

  datatype Error = AlreadyExists | WouldGoNegative

  datatype Result<T> = Ok(value: T) | Err(error: Error)

  /** The item for a variant at a location, or the table's length when there is none. */
  function FindItem(items: seq<Item>, variant: string, location: string): (i: nat)
    ensures i <= |items|
    ensures i < |items| ==> items[i].variant == variant && items[i].location == location
    ensures forall k :: 0 <= k < i ==> items[k].variant != variant || items[k].location != location
  {
    if items == [] || (items[0].variant == variant && items[0].location == location) then 0
    else 1 + FindItem(items[1..], variant, location)
  }

  function AddItem(l: Ledger, variant: string, location: string, onHand: int): Ledger {
    l.(items := l.items + [Item(variant, location, onHand, 0)])
  }

  /** A new item; positive initial stock is booked as a RECEIVE. */
  function Create(l: Ledger, variant: string, location: string, onHand: int): Result<Ledger> {
    if FindItem(l.items, variant, location) < |l.items| then Err(AlreadyExists)
    else
      var added := AddItem(l, variant, location, onHand);
      Ok(if onHand > 0 then added.(moves := l.moves + [Move(|l.items|, RECEIVE, onHand, Manual)]) else added)
  }

  /**
   Find or create the item, then post the signed delta unless it may not go negative.
   The check looks at the level the query saw, the update increments the current one.
   */
  function Adjust(l: Ledger, variant: string, location: string, delta: int, kind: MoveKind, seen: int): Result<Ledger> {
    var i := FindItem(l.items, variant, location);
    var found := if i < |l.items| then l else AddItem(l, variant, location, 0);
    var level := if i < |l.items| then seen else 0;
    if level + delta < 0 && kind != ADJUSTMENT then Err(WouldGoNegative)
    else Ok(Post(found, Move(i, kind, delta, Manual)))
  }

  lemma {:induction false} AddItemConserves(l: Ledger, variant: string, location: string)
    requires Conserved(l)
    ensures Conserved(AddItem(l, variant, location, 0))
  {
    NothingBooked(l.moves, |l.items|);
  }

  /** Creation keeps the ledger exact precisely when the initial level is not negative. */
  lemma {:induction false} CreateConserves(l: Ledger, variant: string, location: string, onHand: int)
    requires Conserved(l) && Create(l, variant, location, onHand).Ok?
    ensures Conserved(Create(l, variant, location, onHand).value) <==> onHand >= 0
  {
    var n := |l.items|;
    var after := Create(l, variant, location, onHand).value;
    AddItemConserves(l, variant, location);
    NothingBooked(l.moves, n);
    if onHand > 0 {
      PostConserves(AddItem(l, variant, location, 0), Move(n, RECEIVE, onHand, Manual));
      assert after == Post(AddItem(l, variant, location, 0), Move(n, RECEIVE, onHand, Manual));
    } else if onHand < 0 {
      assert after.items[n].onHand != Booked(after.moves, n);
    }
  }

  /** Whatever level the check saw, an accepted adjustment keeps the ledger exact. */
  lemma {:induction false} AdjustConserves(l: Ledger, variant: string, location: string, delta: int, kind: MoveKind,
                                           seen: int)
    requires Conserved(l) && Adjust(l, variant, location, delta, kind, seen).Ok?
    ensures Conserved(Adjust(l, variant, location, delta, kind, seen).value)
  {
    var i := FindItem(l.items, variant, location);
    var found := if i < |l.items| then l else AddItem(l, variant, location, 0);
    AddItemConserves(l, variant, location);
    PostConserves(found, Move(i, kind, delta, Manual));
  }

  /** The adjusted item moves by the delta; checked against its current level, it is not left negative. */
  lemma {:induction false} AdjustLevel(l: Ledger, variant: string, location: string, delta: int, kind: MoveKind,
                                       seen: int)
    requires Adjust(l, variant, location, delta, kind, seen).Ok?
    ensures var i := FindItem(l.items, variant, location);
            var after := Adjust(l, variant, location, delta, kind, seen).value.items;
            && |after| == (if i < |l.items| then |l.items| else i + 1)
            && after[i].onHand == delta + (if i < |l.items| then l.items[i].onHand else 0)
            && (forall k :: 0 <= k < |l.items| && k != i ==> after[k] == l.items[k])
            && (kind != ADJUSTMENT && (i < |l.items| ==> seen == l.items[i].onHand) ==> after[i].onHand >= 0)
  {
  }

  // ----- What queries answer -------------------------------------------------------

  /** The rows of a stock query: items with the on-hand levels it saw. */
  datatype Read = Read(ids: seq<nat>, levels: seq<int>)

  predicate Distinct(ids: seq<nat>) {
    forall j, k :: 0 <= j < k < |ids| ==> ids[j] != ids[k]
  }

  predicate InRange(ids: seq<nat>, n: nat) {
    forall k :: 0 <= k < |ids| ==> ids[k] < n
  }

  /** Some items of the variant, each once, with any levels: a possibly outdated answer. */
  predicate IsRead(items: seq<Item>, variant: string, r: Read) {
    && |r.ids| == |r.levels| && Distinct(r.ids) && InRange(r.ids, |items|)
    && forall k :: 0 <= k < |r.ids| ==> items[r.ids[k]].variant == variant
  }

  ghost predicate Enumerates(items: seq<Item>, variant: string, ids: seq<nat>) {
    Distinct(ids) && forall i :: i in ids <==> 0 <= i < |items| && items[i].variant == variant
  }

  ghost predicate Descending(h: seq<int>) {
    forall j, k :: 0 <= j < k < |h| ==> h[j] >= h[k]
  }

  /** The current answer: all items of the variant by descending on-hand. */
  ghost predicate Fresh(items: seq<Item>, variant: string, r: Read) {
    Enumerates(items, variant, r.ids) && r.levels == Levels(items, r.ids) && Descending(r.levels)
  }

  lemma {:induction false} FreshIsRead(items: seq<Item>, variant: string, r: Read)
    requires Fresh(items, variant, r)
    ensures IsRead(items, variant, r)
  {
    assert forall k :: 0 <= k < |r.ids| ==> r.ids[k] in r.ids;
  }

  /** The item of the variant updated last, if it has any; SQL leaves open which among equals. */
  predicate IsLatest(items: seq<Item>, variant: string, target: Option<nat>) {
    match target
    case Some(i) => i < |items| && items[i].variant == variant
    case None => forall k :: 0 <= k < |items| ==> items[k].variant != variant
  }

  predicate SameVariants(a: seq<Item>, b: seq<Item>) {
    |a| == |b| && forall k :: 0 <= k < |a| ==> a[k].variant == b[k].variant
  }

  /** The on-hand levels of the listed items. */
  function Levels(items: seq<Item>, ids: seq<nat>): seq<int> {
    seq(|ids|, k requires 0 <= k < |ids| => if ids[k] < |items| then items[ids[k]].onHand else 0)
  }

  // ----- Greedy allocation ---------------------------------------------------------

  function Min(a: int, b: int): int { if a < b then a else b }
  function Max(a: int, b: int): int { if a > b then a else b }

  /** How much to take from each listed level until the need is met. */
  function Greedy(h: seq<int>, need: int): (takes: seq<int>)
    ensures |takes| == |h|
  {
    if h == [] then []
    else
      var take := Max(0, Min(h[0], need));
      [take] + Greedy(h[1..], need - take)
  }

  function Sum(s: seq<int>): int {
    if s == [] then 0 else s[0] + Sum(s[1..])
  }

  /** The stock that can be sold: negative levels count as none. */
  function Positive(h: seq<int>): seq<int> {
    seq(|h|, k requires 0 <= k < |h| => Max(0, h[k]))
  }

  /** How many items an allocation touches. */
  function Touched(takes: seq<int>): nat {
    if takes == [] then 0 else (if takes[0] > 0 then 1 else 0) + Touched(takes[1..])
  }

  /** An allocation never takes a negative amount or more than there is. */
  ghost predicate Feasible(h: seq<int>, takes: seq<int>) {
    |takes| == |h| && forall k :: 0 <= k < |h| ==> 0 <= takes[k] <= Max(0, h[k])
  }

  /** The greedy takes are feasible and add up to exactly what can be had of the need. */
  lemma {:induction false} GreedyExact(h: seq<int>, need: int)
    ensures Feasible(h, Greedy(h, need))
    ensures Sum(Greedy(h, need)) == Max(0, Min(need, Sum(Positive(h))))
    ensures Sum(Positive(h)) >= 0
  {
    if h != [] {
      var take := Max(0, Min(h[0], need));
      GreedyExact(h[1..], need - take);
      assert Positive(h)[1..] == Positive(h[1..]);
    }
  }

  /** What the first n levels of a list hold together. */
  function Best(h: seq<int>, n: nat): int {
    if n == 0 || h == [] then 0 else Max(0, h[0]) + Best(h[1..], n - 1)
  }

  lemma {:induction false} BestShift(h: seq<int>, n: nat)
    requires h != [] && Descending(h)
    ensures Best(h[1..], n) <= Best(h, n)
  {
    if n > 0 && |h| > 1 {
      BestShift(h[1..], n - 1);
      assert h[1..][1..] == h[2..];
      assert Best(h[1..], n) == Max(0, h[1]) + Best(h[2..], n - 1);
    }
  }

  /** No allocation gets more out of n items than the n highest levels hold. */
  lemma {:induction false} TouchedBound(h: seq<int>, takes: seq<int>)
    requires Descending(h) && Feasible(h, takes)
    ensures Sum(takes) <= Best(h, Touched(takes))
  {
    if h != [] {
      TouchedBound(h[1..], takes[1..]);
      BestShift(h, Touched(takes));
    }
  }

  lemma {:induction false} GreedyNotNegative(h: seq<int>, need: int)
    ensures Sum(Greedy(h, need)) >= 0
  {
    GreedyExact(h, need);
  }

  /** Greedy takes more than any smaller number of the highest levels holds. */
  lemma {:induction false} GreedyBeats(h: seq<int>, need: int, n: nat)
    requires Descending(h) && n < Touched(Greedy(h, need))
    ensures Best(h, n) < Sum(Greedy(h, need))
  {
    var take := Max(0, Min(h[0], need));
    assert Greedy(h, need) == [take] + Greedy(h[1..], need - take);
    GreedyNotNegative(h[1..], need - take);
    if take <= 0 {
      GreedyTakesNothing(h, need);
    } else if n > 0 {
      if need <= h[0] {
        GreedyTakesNothing(h[1..], need - take);
      }
      GreedyBeats(h[1..], need - take, n - 1);
    }
  }

  lemma {:induction false} GreedyTakesNothing(h: seq<int>, need: int)
    requires Descending(h) && (h == [] || h[0] <= 0 || need <= 0)
    ensures Touched(Greedy(h, need)) == 0
  {
    if h != [] {
      GreedyTakesNothing(h[1..], need);
    }
  }

  /** No allocation of the same total touches fewer items than the greedy one. */
  lemma {:induction false} GreedyFewest(h: seq<int>, need: int, takes: seq<int>)
    requires Descending(h) && Feasible(h, takes)
    requires Sum(takes) == Sum(Greedy(h, need))
    ensures Touched(Greedy(h, need)) <= Touched(takes)
  {
    TouchedBound(h, takes);
    if Touched(takes) < Touched(Greedy(h, need)) {
      GreedyBeats(h, need, Touched(takes));
    }
  }

  // ----- Selling -------------------------------------------------------------------

  /** Post a SALE for every positive take, one item after the other. */
  function Sell(l: Ledger, ids: seq<nat>, takes: seq<int>, ref: Ref): (after: Ledger)
    requires |ids| == |takes| && InRange(ids, |l.items|)
    ensures |after.items| == |l.items| && SameVariants(l.items, after.items)
    decreases |ids|
  {
    if ids == [] then l
    else
      Sell(if takes[0] > 0 then Post(l, Move(ids[0], SALE, -takes[0], ref)) else l, ids[1..], takes[1..], ref)
  }

  /** One order line: greedy over the levels as read before the first update. */
  function SellVariant(l: Ledger, r: Read, quantity: nat, ref: Ref): (after: Ledger)
    requires |r.ids| == |r.levels| && InRange(r.ids, |l.items|)
    ensures SameVariants(l.items, after.items)
  {
    Sell(l, r.ids, Greedy(r.levels, quantity), ref)
  }

  /** Selling conserves the ledger whatever the takes are, so also when they were computed from stale levels. */
  lemma {:induction false} SellConserves(l: Ledger, ids: seq<nat>, takes: seq<int>, ref: Ref)
    requires |ids| == |takes| && InRange(ids, |l.items|)
    requires Conserved(l)
    ensures Conserved(Sell(l, ids, takes, ref))
    decreases |ids|
  {
    if ids != [] {
      var m := Move(ids[0], SALE, -takes[0], ref);
      PostConserves(l, m);
      SellConserves(if takes[0] > 0 then Post(l, m) else l, ids[1..], takes[1..], ref);
    }
  }

  lemma {:induction false} SellOther(l: Ledger, ids: seq<nat>, takes: seq<int>, ref: Ref, i: nat)
    requires |ids| == |takes| && InRange(ids, |l.items|) && i < |l.items| && i !in ids
    ensures Sell(l, ids, takes, ref).items[i] == l.items[i]
    decreases |ids|
  {
    if ids != [] {
      hide SameVariants;
      SellOther(if takes[0] > 0 then Post(l, Move(ids[0], SALE, -takes[0], ref)) else l, ids[1..], takes[1..], ref, i);
    }
  }

  lemma {:induction false} SellListed(l: Ledger, ids: seq<nat>, takes: seq<int>, ref: Ref, k: nat)
    requires |ids| == |takes| && Distinct(ids) && InRange(ids, |l.items|) && k < |ids| && takes[k] >= 0
    ensures Sell(l, ids, takes, ref).items[ids[k]] == l.items[ids[k]].(onHand := l.items[ids[k]].onHand - takes[k])
    decreases |ids|
  {
    hide SameVariants;
    var next := if takes[0] > 0 then Post(l, Move(ids[0], SALE, -takes[0], ref)) else l;
    if k == 0 {
      assert ids[0] !in ids[1..];
      SellOther(next, ids[1..], takes[1..], ref, ids[0]);
    } else {
      SellListed(next, ids[1..], takes[1..], ref, k - 1);
    }
  }

  /** Each listed item goes down by its take; nothing else about any item changes. */
  lemma {:induction false} SellLevels(l: Ledger, ids: seq<nat>, takes: seq<int>, ref: Ref)
    requires |ids| == |takes| && Distinct(ids) && InRange(ids, |l.items|)
    requires forall k :: 0 <= k < |takes| ==> takes[k] >= 0
    ensures var items := Sell(l, ids, takes, ref).items;
            && (forall k :: 0 <= k < |ids| ==>
                  items[ids[k]] == l.items[ids[k]].(onHand := l.items[ids[k]].onHand - takes[k]))
            && (forall i :: 0 <= i < |items| && i !in ids ==> items[i] == l.items[i])
  {
    forall k | 0 <= k < |ids|
      ensures Sell(l, ids, takes, ref).items[ids[k]]
           == l.items[ids[k]].(onHand := l.items[ids[k]].onHand - takes[k])
    {
      SellListed(l, ids, takes, ref, k);
    }
    forall i | 0 <= i < |l.items| && i !in ids ensures Sell(l, ids, takes, ref).items[i] == l.items[i] {
      SellOther(l, ids, takes, ref, i);
    }
  }

  /** Units of an order that the ledger shows as sold. */
  function SoldUnits(moves: seq<Move>, ref: Ref): int {
    if moves == [] then 0
    else
      var n := |moves| - 1;
      SoldUnits(moves[..n], ref) - if moves[n].kind == SALE && moves[n].ref == ref then moves[n].quantity else 0
  }

  lemma {:induction false} SellBooks(l: Ledger, ids: seq<nat>, takes: seq<int>, ref: Ref, other: Ref)
    requires |ids| == |takes| && InRange(ids, |l.items|)
    requires forall k :: 0 <= k < |takes| ==> takes[k] >= 0
    ensures SoldUnits(Sell(l, ids, takes, ref).moves, other)
         == SoldUnits(l.moves, other) + if other == ref then Sum(takes) else 0
    decreases |ids|
  {
    if ids != [] {
      var m := Move(ids[0], SALE, -takes[0], ref);
      assert (l.moves + [m])[..|l.moves|] == l.moves;
      SellBooks(if takes[0] > 0 then Post(l, m) else l, ids[1..], takes[1..], ref, other);
    }
  }

  /** The sum of f over the variant's items among the first n. */
  function TotalOf(items: seq<Item>, variant: string, f: nat -> int, n: nat): int
    requires n <= |items|
  {
    if n == 0 then 0 else TotalOf(items, variant, f, n - 1) + if items[n - 1].variant == variant then f(n - 1) else 0
  }

  /** The part of an item's level that can be sold. */
  function PositiveLevel(items: seq<Item>): nat -> int {
    (i: nat) => if i < |items| then Max(0, items[i].onHand) else 0
  }

  /** What is sellable of a variant: the positive levels of its items. */
  function Sellable(items: seq<Item>, variant: string): int {
    TotalOf(items, variant, PositiveLevel(items), |items|)
  }

  /** The values of f in the order of the listing. */
  function Chosen(ids: seq<nat>, f: nat -> int): seq<int> {
    seq(|ids|, k requires 0 <= k < |ids| => f(ids[k]))
  }

  lemma {:induction false} SumRemove(a: seq<int>, x: int, b: seq<int>)
    ensures Sum(a + [x] + b) == Sum(a + b) + x
  {
    if a == [] {
      assert a + [x] + b == [x] + b && a + b == b;
    } else {
      assert (a + [x] + b)[1..] == a[1..] + [x] + b && (a + b)[1..] == a[1..] + b;
      SumRemove(a[1..], x, b);
    }
  }

  lemma {:induction false} ChosenRemove(ids: seq<nat>, f: nat -> int, p: nat)
    requires p < |ids|
    ensures Sum(Chosen(ids, f)) == Sum(Chosen(ids[..p] + ids[p + 1..], f)) + f(ids[p])
  {
    var a, b := Chosen(ids[..p], f), Chosen(ids[p + 1..], f);
    assert Chosen(ids, f) == a + [f(ids[p])] + b;
    assert Chosen(ids[..p] + ids[p + 1..], f) == a + b;
    SumRemove(a, f(ids[p]), b);
  }

  ghost predicate EnumeratesBelow(items: seq<Item>, variant: string, ids: seq<nat>, n: nat)
    requires n <= |items|
  {
    Distinct(ids) && forall i :: i in ids <==> 0 <= i < n && items[i].variant == variant
  }

  lemma {:induction false} EnumeratesRest(items: seq<Item>, variant: string, ids: seq<nat>, n: nat, p: nat)
    requires 0 < n <= |items| && EnumeratesBelow(items, variant, ids, n) && p < |ids| && ids[p] == n - 1
    ensures EnumeratesBelow(items, variant, ids[..p] + ids[p + 1..], n - 1)
  {
    var rest := ids[..p] + ids[p + 1..];
    forall i ensures i in rest <==> i in ids && i != ids[p] {
      if i in ids && i != ids[p] {
        var k :| 0 <= k < |ids| && ids[k] == i;
        assert rest[if k < p then k else k - 1] == i;
      }
    }
  }

  lemma {:induction false} FirstIn(ids: seq<nat>)
    requires ids != []
    ensures ids[0] in ids
  {
  }

  /** In whatever order the variant's items are listed, the values add up to the same. */
  lemma {:induction false} ListingTotal(items: seq<Item>, variant: string, ids: seq<nat>, f: nat -> int, n: nat)
    requires n <= |items| && EnumeratesBelow(items, variant, ids, n)
    ensures Sum(Chosen(ids, f)) == TotalOf(items, variant, f, n)
  {
    if n == 0 {
      if ids != [] {
        FirstIn(ids);
        assert false;
      }
    } else if items[n - 1].variant == variant {
      assert n - 1 in ids;
      var p :| 0 <= p < |ids| && ids[p] == n - 1;
      EnumeratesRest(items, variant, ids, n, p);
      ListingTotal(items, variant, ids[..p] + ids[p + 1..], f, n - 1);
      ChosenRemove(ids, f, p);
    } else {
      assert EnumeratesBelow(items, variant, ids, n - 1);
      ListingTotal(items, variant, ids, f, n - 1);
    }
  }

  /** A current answer adds up to the sellable stock. */
  lemma {:induction false} FreshIsSellable(items: seq<Item>, variant: string, r: Read)
    requires Fresh(items, variant, r)
    ensures Sum(Positive(r.levels)) == Sellable(items, variant)
  {
    FreshIsRead(items, variant, r);
    ListingTotal(items, variant, r.ids, PositiveLevel(items), |items|);
    assert Positive(r.levels) == Chosen(r.ids, PositiveLevel(items));
  }

  /**
   From a current answer, a paid line books exactly what can be had of its quantity,
   takes it from the variant's items only, drives no level that was not negative below
   zero, and keeps the ledger exact.
   */
  lemma {:induction false} SellVariantExact(l: Ledger, variant: string, r: Read, quantity: nat, ref: Ref)
    requires Fresh(l.items, variant, r)
    ensures IsRead(l.items, variant, r)
    ensures var after := SellVariant(l, r, quantity, ref);
            && SoldUnits(after.moves, ref) == SoldUnits(l.moves, ref) + Min(quantity, Sellable(l.items, variant))
            && (forall i :: 0 <= i < |l.items| ==>
                  && (l.items[i].variant != variant ==> after.items[i] == l.items[i])
                  && Min(0, l.items[i].onHand) <= after.items[i].onHand <= l.items[i].onHand)
  {
    hide Greedy, SoldUnits, Sum, TotalOf, Positive;
    FreshIsRead(l.items, variant, r);
    var takes := Greedy(r.levels, quantity);
    GreedyExact(r.levels, quantity);
    FreshIsSellable(l.items, variant, r);
    SellLevels(l, r.ids, takes, ref);
    SellBooks(l, r.ids, takes, ref, ref);
    var after := SellVariant(l, r, quantity, ref);
    forall i | 0 <= i < |l.items|
      ensures Min(0, l.items[i].onHand) <= after.items[i].onHand <= l.items[i].onHand
      ensures l.items[i].variant != variant ==> after.items[i] == l.items[i]
    {
      if i in r.ids {
        var k :| 0 <= k < |r.ids| && r.ids[k] == i;
        assert r.levels[k] == l.items[i].onHand;
      }
    }
  }

  /**
   From any answer, a paid line books between nothing and its quantity, touches only
   items of its variant, raises no level and keeps the ledger exact.
   */
  lemma {:induction false} SellVariantBounded(l: Ledger, variant: string, r: Read, quantity: nat, ref: Ref)
    requires IsRead(l.items, variant, r)
    ensures var after := SellVariant(l, r, quantity, ref);
            && SoldUnits(l.moves, ref) <= SoldUnits(after.moves, ref) <= SoldUnits(l.moves, ref) + quantity
            && (forall other :: other != ref ==> SoldUnits(after.moves, other) == SoldUnits(l.moves, other))
            && (forall i :: 0 <= i < |l.items| ==>
                  && (l.items[i].variant != variant ==> after.items[i] == l.items[i])
                  && after.items[i].onHand <= l.items[i].onHand)
            && (Conserved(l) ==> Conserved(after))
  {
    var takes := Greedy(r.levels, quantity);
    GreedyExact(r.levels, quantity);
    SellLevels(l, r.ids, takes, ref);
    forall other ensures SoldUnits(SellVariant(l, r, quantity, ref).moves, other)
                      == SoldUnits(l.moves, other) + if other == ref then Sum(takes) else 0 {
      SellBooks(l, r.ids, takes, ref, other);
    }
    var after := SellVariant(l, r, quantity, ref);
    forall i | 0 <= i < |l.items|
      ensures after.items[i].onHand <= l.items[i].onHand
      ensures l.items[i].variant != variant ==> after.items[i] == l.items[i]
    {
      if i in r.ids {
        var k :| 0 <= k < |r.ids| && r.ids[k] == i;
      }
    }
    if Conserved(l) {
      SellConserves(l, r.ids, takes, ref);
    }
  }

  /** One for each item that satisfies p. */
  function Indicator(p: nat -> bool): nat -> int {
    (i: nat) => if p(i) then 1 else 0
  }

  /** How many of the variant's items satisfy p. */
  function CountOf(items: seq<Item>, variant: string, p: nat -> bool): int {
    TotalOf(items, variant, Indicator(p), |items|)
  }

  function Changed(a: seq<Item>, b: seq<Item>): nat -> bool {
    (i: nat) => i < |a| && i < |b| && a[i].onHand != b[i].onHand
  }

  function Taken(alloc: nat -> int): nat -> bool {
    (i: nat) => alloc(i) > 0
  }

  lemma {:induction false} TouchedIsSum(ids: seq<nat>, takes: seq<int>, p: nat -> bool)
    requires |ids| == |takes| && forall k :: 0 <= k < |ids| ==> (p(ids[k]) <==> takes[k] > 0)
    ensures Touched(takes) == Sum(Chosen(ids, Indicator(p)))
    decreases |ids|
  {
    if ids != [] {
      TouchedIsSum(ids[1..], takes[1..], p);
      assert Chosen(ids, Indicator(p))[1..] == Chosen(ids[1..], Indicator(p));
    }
  }

  lemma {:induction false} TouchedIsCount(items: seq<Item>, variant: string, ids: seq<nat>, takes: seq<int>,
                                          p: nat -> bool)
    requires Enumerates(items, variant, ids)
    requires |ids| == |takes| && forall k :: 0 <= k < |ids| ==> (p(ids[k]) <==> takes[k] > 0)
    ensures Touched(takes) == CountOf(items, variant, p)
  {
    TouchedIsSum(ids, takes, p);
    ListingTotal(items, variant, ids, Indicator(p), |items|);
  }

  /**
   From a current answer, no way of taking the same total from the variant's items
   changes fewer of them than the sale does.
   */
  lemma {:induction false} SellFewestItems(l: Ledger, variant: string, r: Read, quantity: nat, ref: Ref,
                                           alloc: nat -> int)
    requires Fresh(l.items, variant, r) && IsRead(l.items, variant, r)
    requires forall i: nat :: i < |l.items| && l.items[i].variant == variant ==>
               0 <= alloc(i) <= Max(0, l.items[i].onHand)
    requires TotalOf(l.items, variant, alloc, |l.items|)
          == SoldUnits(SellVariant(l, r, quantity, ref).moves, ref) - SoldUnits(l.moves, ref)
    ensures CountOf(l.items, variant, Changed(l.items, SellVariant(l, r, quantity, ref).items))
         <= CountOf(l.items, variant, Taken(alloc))
  {
    var takes, others := Greedy(r.levels, quantity), Chosen(r.ids, alloc);
    GreedyExact(r.levels, quantity);
    SellLevels(l, r.ids, takes, ref);
    SellBooks(l, r.ids, takes, ref, ref);
    ListingTotal(l.items, variant, r.ids, alloc, |l.items|);
    assert Sum(others) == Sum(takes);
    assert Feasible(r.levels, others);
    GreedyFewest(r.levels, quantity, others);
    TouchedIsCount(l.items, variant, r.ids, takes, Changed(l.items, SellVariant(l, r, quantity, ref).items));
    TouchedIsCount(l.items, variant, r.ids, others, Taken(alloc));
  }

  // ----- Order lines and returns -----------------------------------------------------

  datatype Line = Line(variant: Option<string>, quantity: nat, unitPriceCents: int)

  /** One possible answer for each line that names a variant. */
  predicate ReadsOk(items: seq<Item>, lines: seq<Line>, answers: seq<Read>) {
    |answers| == |lines|
    && forall k :: 0 <= k < |lines| && lines[k].variant.Some? ==> IsRead(items, lines[k].variant.value, answers[k])
  }

  lemma {:induction false} ReadsStayOk(a: seq<Item>, b: seq<Item>, lines: seq<Line>, answers: seq<Read>)
    requires ReadsOk(a, lines, answers) && SameVariants(a, b) && lines != []
    ensures ReadsOk(b, lines[1..], answers[1..])
  {
  }

  function SellLines(l: Ledger, lines: seq<Line>, answers: seq<Read>, ref: Ref): Ledger
    requires ReadsOk(l.items, lines, answers)
    decreases |lines|
  {
    if lines == [] then l
    else
      var next := if lines[0].variant.Some? then SellVariant(l, answers[0], lines[0].quantity, ref) else l;
      ReadsStayOk(l.items, next.items, lines, answers);
      SellLines(next, lines[1..], answers[1..], ref)
  }

  /** Units ordered of tracked variants. */
  function Ordered(lines: seq<Line>): nat {
    if lines == [] then 0
    else (if lines[0].variant.Some? then lines[0].quantity else 0) + Ordered(lines[1..])
  }

  /**
   Whatever levels its queries saw, a whole pass over an order sells at most what was
   ordered, books only its own order, raises no level and keeps the ledger exact.
   */
  lemma {:induction false} SellLinesBounded(l: Ledger, lines: seq<Line>, answers: seq<Read>, ref: Ref)
    requires ReadsOk(l.items, lines, answers)
    ensures var after := SellLines(l, lines, answers, ref);
            && 0 <= SoldUnits(after.moves, ref) - SoldUnits(l.moves, ref) <= Ordered(lines)
            && (forall other :: other != ref ==> SoldUnits(after.moves, other) == SoldUnits(l.moves, other))
            && SameVariants(l.items, after.items)
            && (forall i :: 0 <= i < |l.items| ==> after.items[i].onHand <= l.items[i].onHand)
            && (Conserved(l) ==> Conserved(after))
    decreases |lines|
  {
    if lines != [] {
      hide SellVariant;
      var next := l;
      if lines[0].variant.Some? {
        next := SellVariant(l, answers[0], lines[0].quantity, ref);
        SellVariantBounded(l, lines[0].variant.value, answers[0], lines[0].quantity, ref);
      }
      ReadsStayOk(l.items, next.items, lines, answers);
      hide IsRead;
      SellLinesBounded(next, lines[1..], answers[1..], ref);
    }
  }

  /** Every query of the pass gets the answer that is current when it runs. */
  ghost predicate AllFresh(l: Ledger, lines: seq<Line>, answers: seq<Read>, ref: Ref)
    requires ReadsOk(l.items, lines, answers)
    decreases |lines|
  {
    lines == []
    || ((lines[0].variant.Some? ==> Fresh(l.items, lines[0].variant.value, answers[0]))
        && var next := if lines[0].variant.Some? then SellVariant(l, answers[0], lines[0].quantity, ref) else l;
           ReadsStayOk(l.items, next.items, lines, answers);
           AllFresh(next, lines[1..], answers[1..], ref))
  }

  predicate TargetsOk(items: seq<Item>, lines: seq<Line>, targets: seq<Option<nat>>) {
    |targets| == |lines|
    && forall k :: 0 <= k < |lines| && lines[k].variant.Some? ==> IsLatest(items, lines[k].variant.value, targets[k])
  }

  lemma {:induction false} TargetsStayOk(a: seq<Item>, b: seq<Item>, lines: seq<Line>, targets: seq<Option<nat>>)
    requires TargetsOk(a, lines, targets) && SameVariants(a, b) && lines != []
    ensures TargetsOk(b, lines[1..], targets[1..])
  {
  }

  function RestockVariant(l: Ledger, target: Option<nat>, quantity: nat, ref: Ref): (after: Ledger)
    requires target.Some? ==> target.value < |l.items|
    ensures SameVariants(l.items, after.items)
  {
    match target
    case None => l
    case Some(i) => Post(l, Move(i, RETURN, quantity, ref))
  }

  function Restock(l: Ledger, lines: seq<Line>, targets: seq<Option<nat>>, ref: Ref): Ledger
    requires TargetsOk(l.items, lines, targets)
    decreases |lines|
  {
    if lines == [] then l
    else
      var next := if lines[0].variant.Some? then RestockVariant(l, targets[0], lines[0].quantity, ref) else l;
      TargetsStayOk(l.items, next.items, lines, targets);
      Restock(next, lines[1..], targets[1..], ref)
  }

  /** Units of a return that the ledger shows as put back. */
  function RestockedUnits(moves: seq<Move>, ref: Ref): int {
    if moves == [] then 0
    else
      var n := |moves| - 1;
      RestockedUnits(moves[..n], ref) + if moves[n].kind == RETURN && moves[n].ref == ref then moves[n].quantity else 0
  }

  /** The variant has an item. */
  predicate Tracked(items: seq<Item>, variant: string) {
    exists k :: 0 <= k < |items| && items[k].variant == variant
  }

  /** Units of a return whose variant has an inventory item to go back to. */
  function Restockable(items: seq<Item>, lines: seq<Line>): int {
    if lines == [] then 0
    else
      (if lines[0].variant.Some? && Tracked(items, lines[0].variant.value) then lines[0].quantity else 0)
      + Restockable(items, lines[1..])
  }

  lemma {:induction false} SellRestocksNothing(l: Ledger, ids: seq<nat>, takes: seq<int>, ref: Ref, other: Ref)
    requires |ids| == |takes| && InRange(ids, |l.items|)
    ensures RestockedUnits(Sell(l, ids, takes, ref).moves, other) == RestockedUnits(l.moves, other)
    decreases |ids|
  {
    if ids != [] {
      var m := Move(ids[0], SALE, -takes[0], ref);
      assert (l.moves + [m])[..|l.moves|] == l.moves;
      SellRestocksNothing(if takes[0] > 0 then Post(l, m) else l, ids[1..], takes[1..], ref, other);
    }
  }

  lemma {:induction false} SalesRestockNothing(l: Ledger, lines: seq<Line>, answers: seq<Read>, ref: Ref, other: Ref)
    requires ReadsOk(l.items, lines, answers)
    ensures RestockedUnits(SellLines(l, lines, answers, ref).moves, other) == RestockedUnits(l.moves, other)
    decreases |lines|
  {
    if lines != [] {
      var next := l;
      if lines[0].variant.Some? {
        next := SellVariant(l, answers[0], lines[0].quantity, ref);
        SellRestocksNothing(l, answers[0].ids, Greedy(answers[0].levels, lines[0].quantity), ref, other);
      }
      ReadsStayOk(l.items, next.items, lines, answers);
      hide IsRead, SellVariant;
      SalesRestockNothing(next, lines[1..], answers[1..], ref, other);
    }
  }

  /** A restock for one reference is not one for another. */
  lemma {:induction false} RestockOthers(l: Ledger, lines: seq<Line>, targets: seq<Option<nat>>, ref: Ref, other: Ref)
    requires TargetsOk(l.items, lines, targets) && other != ref
    ensures RestockedUnits(Restock(l, lines, targets, ref).moves, other) == RestockedUnits(l.moves, other)
    decreases |lines|
  {
    if lines != [] {
      var next := l;
      if lines[0].variant.Some? {
        next := RestockVariant(l, targets[0], lines[0].quantity, ref);
        assert targets[0].Some? ==> next.moves[..|l.moves|] == l.moves;
      }
      TargetsStayOk(l.items, next.items, lines, targets);
      hide IsLatest;
      RestockOthers(next, lines[1..], targets[1..], ref, other);
    }
  }

  /** Units of a return, restockable or not. */
  function Units(lines: seq<Line>): nat {
    if lines == [] then 0 else lines[0].quantity + Units(lines[1..])
  }

  lemma {:induction false} RestockableBounded(items: seq<Item>, lines: seq<Line>)
    ensures 0 <= Restockable(items, lines) <= Units(lines)
  {
    if lines != [] {
      RestockableBounded(items, lines[1..]);
    }
  }

  lemma {:induction false} TrackedSame(a: seq<Item>, b: seq<Item>, variant: string)
    requires SameVariants(a, b)
    ensures Tracked(a, variant) <==> Tracked(b, variant)
  {
    if Tracked(a, variant) {
      var k :| 0 <= k < |a| && a[k].variant == variant;
      assert b[k].variant == variant;
    }
    if Tracked(b, variant) {
      var k :| 0 <= k < |b| && b[k].variant == variant;
      assert a[k].variant == variant;
    }
  }

  lemma {:induction false} RestockableSame(a: seq<Item>, b: seq<Item>, lines: seq<Line>)
    requires SameVariants(a, b)
    ensures Restockable(a, lines) == Restockable(b, lines)
  {
    if lines != [] {
      RestockableSame(a, b, lines[1..]);
      if lines[0].variant.Some? {
        TrackedSame(a, b, lines[0].variant.value);
      }
    }
  }

  lemma {:induction false} RestockVariantExact(l: Ledger, variant: string, target: Option<nat>, quantity: nat, ref: Ref)
    requires IsLatest(l.items, variant, target)
    ensures var after := RestockVariant(l, target, quantity, ref);
            && (Conserved(l) ==> Conserved(after))
            && (forall other :: SoldUnits(after.moves, other) == SoldUnits(l.moves, other))
            && (forall i :: 0 <= i < |l.items| ==> after.items[i].onHand >= l.items[i].onHand)
            && RestockedUnits(after.moves, ref) == RestockedUnits(l.moves, ref)
               + if Tracked(l.items, variant) then quantity else 0
  {
    if target.Some? {
      var m := Move(target.value, RETURN, quantity, ref);
      if Conserved(l) {
        PostConserves(l, m);
      }
      assert (l.moves + [m])[..|l.moves|] == l.moves;
    }
  }

  /** A refunded return puts back each tracked line in full, sells nothing and keeps the ledger exact. */
  lemma {:induction false} RestockExact(l: Ledger, lines: seq<Line>, targets: seq<Option<nat>>, ref: Ref)
    requires TargetsOk(l.items, lines, targets)
    ensures var after := Restock(l, lines, targets, ref);
            && SameVariants(l.items, after.items)
            && (Conserved(l) ==> Conserved(after))
            && (forall other :: SoldUnits(after.moves, other) == SoldUnits(l.moves, other))
            && (forall i :: 0 <= i < |l.items| ==> after.items[i].onHand >= l.items[i].onHand)
            && RestockedUnits(after.moves, ref) == RestockedUnits(l.moves, ref) + Restockable(l.items, lines)
    decreases |lines|
  {
    hide RestockVariant, Tracked, SoldUnits, RestockedUnits, Conserved;
    if lines != [] {
      var next := l;
      if lines[0].variant.Some? {
        next := RestockVariant(l, targets[0], lines[0].quantity, ref);
        RestockVariantExact(l, lines[0].variant.value, targets[0], lines[0].quantity, ref);
      }
      TargetsStayOk(l.items, next.items, lines, targets);
      RestockableSame(l.items, next.items, lines[1..]);
      RestockExact(next, lines[1..], targets[1..], ref);
    }
  }

  // ----- The tables in place -----------------------------------------------------------

  lemma {:induction false} SellNothing(l: Ledger, ids: seq<nat>, h: seq<int>, need: int, ref: Ref)
    requires |ids| == |h| && InRange(ids, |l.items|) && need <= 0
    ensures Sell(l, ids, Greedy(h, need), ref) == l
    decreases |ids|
  {
    if ids != [] {
      SellNothing(l, ids[1..], h[1..], need, ref);
    }
  }

  lemma {:induction false} SellStep(l: Ledger, ids: seq<nat>, h: seq<int>, k: nat, need: int, ref: Ref)
    requires |ids| == |h| && InRange(ids, |l.items|) && k < |ids|
    ensures var take := Max(0, Min(h[k], need));
            var next := if take > 0 then Post(l, Move(ids[k], SALE, -take, ref)) else l;
            Sell(l, ids[k..], Greedy(h[k..], need), ref)
            == Sell(next, ids[k + 1..], Greedy(h[k + 1..], need - take), ref)
  {
    assert ids[k..][1..] == ids[k + 1..] && h[k..][1..] == h[k + 1..];
    assert Greedy(h[k..], need)[1..] == Greedy(h[k + 1..], need - Max(0, Min(h[k], need)));
  }

  class StockTables {
    var items: seq<Item>
    var moves: seq<Move>

    function State(): Ledger
      reads this
    {
      Ledger(items, moves)
    }

    constructor ()
      ensures State() == Ledger([], [])
    {
      items, moves := [], [];
    }

    method CreateItem(variant: string, location: string, onHand: int) returns (error: Option<Error>)
      modifies this
      ensures error == None ==> Create(old(State()), variant, location, onHand) == Ok(State())
      ensures error.Some? ==> Create(old(State()), variant, location, onHand) == Err(error.value)
                              && State() == old(State())
    {
      if FindItem(items, variant, location) < |items| {
        return Some(AlreadyExists);
      }
      var id := |items|;
      items := items + [Item(variant, location, onHand, 0)];
      if onHand > 0 {
        moves := moves + [Move(id, RECEIVE, onHand, Manual)];
      }
      return None;
    }

    /** A rejected adjustment also takes back the item it created; `seen` is the level the lookup read. */
    method AdjustItem(variant: string, location: string, delta: int, kind: MoveKind, seen: int)
      returns (error: Option<Error>)
      modifies this
      ensures error == None ==> Adjust(old(State()), variant, location, delta, kind, seen) == Ok(State())
      ensures error.Some? ==> Adjust(old(State()), variant, location, delta, kind, seen) == Err(error.value)
                              && State() == old(State())
    {
      var before := items;
      var i := FindItem(items, variant, location);
      var level := seen;
      if i == |items| {
        items := items + [Item(variant, location, 0, 0)];
        level := 0;
      }
      if level + delta < 0 && kind != ADJUSTMENT {
        items := before;
        return Some(WouldGoNegative);
      }
      moves := moves + [Move(i, kind, delta, Manual)];
      items := items[i := items[i].(onHand := items[i].onHand + delta)];
      return None;
    }

    /** The greedy loop over the rows as they were read. */
    method TakeFrom(ids: seq<nat>, stocks: seq<int>, quantity: int, ref: Ref)
      requires |ids| == |stocks| && InRange(ids, |State().items|)
      modifies this
      ensures State() == Sell(old(State()), ids, Greedy(stocks, quantity), ref)
    {
      hide SameVariants, Greedy;
      var remaining := quantity;
      ghost var all := Sell(State(), ids, Greedy(stocks, quantity), ref);
      var k := 0;
      while k < |ids|
        invariant k <= |ids| && |items| == |old(items)|
        invariant all == Sell(State(), ids[k..], Greedy(stocks[k..], remaining), ref)
      {
        SellStep(State(), ids, stocks, k, remaining, ref);
        if remaining <= 0 {
          SellNothing(State(), ids[k..], stocks[k..], remaining, ref);
          break;
        }
        var take := Min(stocks[k], remaining);
        if take > 0 {
          var i := ids[k];
          items := items[i := items[i].(onHand := items[i].onHand - take)];
          moves := moves + [Move(i, SALE, -take, ref)];
          remaining := remaining - take;
        }
        k := k + 1;
      }
    }

    method SellOneVariant(r: Read, quantity: nat, ref: Ref)
      requires |r.ids| == |r.levels| && InRange(r.ids, |State().items|)
      modifies this
      ensures State() == SellVariant(old(State()), r, quantity, ref)
    {
      TakeFrom(r.ids, r.levels, quantity, ref);
    }

    method DecrementStock(lines: seq<Line>, answers: seq<Read>, ref: Ref)
      requires ReadsOk(items, lines, answers)
      modifies this
      ensures State() == SellLines(old(State()), lines, answers, ref)
    {
      ghost var all := SellLines(State(), lines, answers, ref);
      for n := 0 to |lines|
        invariant ReadsOk(items, lines[n..], answers[n..])
        invariant all == SellLines(State(), lines[n..], answers[n..], ref)
      {
        assert lines[n..][1..] == lines[n + 1..] && answers[n..][1..] == answers[n + 1..];
        assert lines[n..][0] == lines[n] && answers[n..][0] == answers[n];
        ghost var before := items;
        if lines[n].variant.Some? {
          SellOneVariant(answers[n], lines[n].quantity, ref);
        }
        ReadsStayOk(before, items, lines[n..], answers[n..]);
      }
    }

    method RestockAll(lines: seq<Line>, targets: seq<Option<nat>>, ref: Ref)
      requires TargetsOk(items, lines, targets)
      modifies this
      ensures State() == Restock(old(State()), lines, targets, ref)
    {
      ghost var all := Restock(State(), lines, targets, ref);
      for n := 0 to |lines|
        invariant TargetsOk(items, lines[n..], targets[n..])
        invariant all == Restock(State(), lines[n..], targets[n..], ref)
      {
        assert lines[n..][1..] == lines[n + 1..] && targets[n..][1..] == targets[n + 1..];
        assert lines[n..][0] == lines[n] && targets[n..][0] == targets[n];
        ghost var before := items;
        if lines[n].variant.Some? && targets[n].Some? {
          var i := targets[n].value;
          assert IsLatest(items, lines[n].variant.value, targets[n]);
          items := items[i := items[i].(onHand := items[i].onHand + lines[n].quantity)];
          moves := moves + [Move(i, RETURN, lines[n].quantity, ref)];
        }
        TargetsStayOk(before, items, lines[n..], targets[n..]);
      }
    }
  }
}
