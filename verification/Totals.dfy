/** What passes over whole orders and returns do to levels and books, to the unit. */
module Totals {
  import opened Text
  import opened Stock

  /** The units of a variant on hand at all its locations. */
  function OnHandOf(items: seq<Item>, variant: string): int {
    if items == [] then 0
    else
      var n := |items| - 1;
      OnHandOf(items[..n], variant) + if items[n].variant == variant then items[n].onHand else 0
  }

  lemma {:induction false} OnHandUpdate(items: seq<Item>, i: nat, delta: int, variant: string)
    requires i < |items|
    ensures OnHandOf(items[i := items[i].(onHand := items[i].onHand + delta)], variant)
         == OnHandOf(items, variant) + if items[i].variant == variant then delta else 0
  {
    var n := |items| - 1;
    var next := items[i := items[i].(onHand := items[i].onHand + delta)];
    if i < n {
      assert next[..n] == items[..n][i := items[..n][i].(onHand := items[..n][i].onHand + delta)];
      OnHandUpdate(items[..n], i, delta, variant);
    } else {
      assert next[..n] == items[..n];
    }
  }

  lemma {:induction false} PostOnHand(l: Ledger, m: Move, variant: string)
    requires m.item < |l.items|
    ensures OnHandOf(Post(l, m).items, variant)
         == OnHandOf(l.items, variant) + if l.items[m.item].variant == variant then m.quantity else 0
  {
    OnHandUpdate(l.items, m.item, m.quantity, variant);
  }

  /** The units of a variant that the lines name. */
  function Wanted(lines: seq<Line>, variant: string): nat {
    if lines == [] then 0
    else (if lines[0].variant == Some(variant) then lines[0].quantity else 0) + Wanted(lines[1..], variant)
  }

  // ----- Sales ---------------------------------------------------------------------------

  /** What a line gets out of an answer: all it asks for, or all the answer saw. */
  function LineGets(line: Line, r: Read): int {
    Min(line.quantity, Sum(Positive(r.levels)))
  }

  /** What the lines of a pass get together. */
  function Gets(lines: seq<Line>, answers: seq<Read>): int
    requires |answers| == |lines|
    decreases |lines|
  {
    if lines == [] then 0
    else (if lines[0].variant.Some? then LineGets(lines[0], answers[0]) else 0) + Gets(lines[1..], answers[1..])
  }

  /** What the lines naming a variant get together. */
  function GetsOf(lines: seq<Line>, answers: seq<Read>, variant: string): int
    requires |answers| == |lines|
    decreases |lines|
  {
    if lines == [] then 0
    else
      (if lines[0].variant == Some(variant) then LineGets(lines[0], answers[0]) else 0)
      + GetsOf(lines[1..], answers[1..], variant)
  }

  lemma {:induction false} GetsBounded(lines: seq<Line>, answers: seq<Read>)
    requires |answers| == |lines|
    ensures 0 <= Gets(lines, answers) <= Ordered(lines)
    decreases |lines|
  {
    if lines != [] {
      GreedyExact(answers[0].levels, 0);
      GetsBounded(lines[1..], answers[1..]);
    }
  }

  lemma {:induction false} SellOnHand(l: Ledger, ids: seq<nat>, takes: seq<int>, ref: Ref, named: string,
                                      variant: string)
    requires |ids| == |takes| && InRange(ids, |l.items|)
    requires forall k :: 0 <= k < |ids| ==> l.items[ids[k]].variant == named && takes[k] >= 0
    ensures OnHandOf(Sell(l, ids, takes, ref).items, variant)
         == OnHandOf(l.items, variant) - if named == variant then Sum(takes) else 0
    decreases |ids|
  {
    if ids != [] {
      var m := Move(ids[0], SALE, -takes[0], ref);
      PostOnHand(l, m, variant);
      SellOnHand(if takes[0] > 0 then Post(l, m) else l, ids[1..], takes[1..], ref, named, variant);
    }
  }

  lemma {:induction false} LineSells(l: Ledger, line: Line, r: Read, ref: Ref, variant: string)
    requires line.variant.Some? && IsRead(l.items, line.variant.value, r)
    ensures var after := SellVariant(l, r, line.quantity, ref);
            && SoldUnits(after.moves, ref) == SoldUnits(l.moves, ref) + LineGets(line, r)
            && OnHandOf(after.items, variant)
               == OnHandOf(l.items, variant) - if line.variant.value == variant then LineGets(line, r) else 0
  {
    var takes := Greedy(r.levels, line.quantity);
    GreedyExact(r.levels, line.quantity);
    SellBooks(l, r.ids, takes, ref, ref);
    SellOnHand(l, r.ids, takes, ref, line.variant.value, variant);
  }

  /**
   A pass books for its order, line by line, the smaller of the quantity and what the
   answer saw, and takes exactly that from the variant the line names.
   */
  lemma {:induction false} PassSells(l: Ledger, lines: seq<Line>, answers: seq<Read>, ref: Ref, variant: string)
    requires ReadsOk(l.items, lines, answers)
    ensures var after := SellLines(l, lines, answers, ref);
            && SoldUnits(after.moves, ref) == SoldUnits(l.moves, ref) + Gets(lines, answers)
            && OnHandOf(after.items, variant) == OnHandOf(l.items, variant) - GetsOf(lines, answers, variant)
    decreases |lines|
  {
    hide SellVariant, LineGets, OnHandOf, SoldUnits;
    if lines != [] {
      var next := l;
      if lines[0].variant.Some? {
        next := SellVariant(l, answers[0], lines[0].quantity, ref);
        LineSells(l, lines[0], answers[0], ref, variant);
      }
      ReadsStayOk(l.items, next.items, lines, answers);
      PassSells(next, lines[1..], answers[1..], ref, variant);
    }
  }

  // ----- Sales from current answers --------------------------------------------------------

  lemma {:induction false} SumMinus(a: seq<int>, b: seq<int>, c: seq<int>)
    requires |a| == |b| == |c| && forall k :: 0 <= k < |a| ==> c[k] == a[k] - b[k]
    ensures Sum(c) == Sum(a) - Sum(b)
  {
    if a != [] {
      SumMinus(a[1..], b[1..], c[1..]);
    }
  }

  /** Items that did not change add up to the same. */
  lemma {:induction false} SellableSame(a: seq<Item>, b: seq<Item>, variant: string, n: nat)
    requires n <= |a| && SameVariants(a, b) && forall i :: 0 <= i < n && a[i].variant == variant ==> a[i] == b[i]
    ensures TotalOf(a, variant, PositiveLevel(a), n) == TotalOf(b, variant, PositiveLevel(b), n)
  {
    if n > 0 {
      SellableSame(a, b, variant, n - 1);
    }
  }

  lemma {:induction false} SellableNotNegative(items: seq<Item>, variant: string, n: nat)
    requires n <= |items|
    ensures TotalOf(items, variant, PositiveLevel(items), n) >= 0
  {
    if n > 0 {
      SellableNotNegative(items, variant, n - 1);
    }
  }

  /** A line with a current answer takes all it asks for, or all there is. */
  lemma {:induction false} SellableFalls(l: Ledger, named: string, r: Read, quantity: nat, ref: Ref, variant: string)
    requires Fresh(l.items, named, r) && IsRead(l.items, named, r)
    ensures Sellable(SellVariant(l, r, quantity, ref).items, variant)
         == Sellable(l.items, variant) - if named == variant then Min(quantity, Sellable(l.items, variant)) else 0
  {
    hide Fresh, Greedy, SellVariant;
    SellVariantExact(l, named, r, quantity, ref);
    if named == variant {
      SellableOfListing(l, named, r, quantity, ref);
    } else {
      SellableSame(l.items, SellVariant(l, r, quantity, ref).items, variant, |l.items|);
    }
  }

  lemma {:induction false} SellableOfListing(l: Ledger, named: string, r: Read, quantity: nat, ref: Ref)
    requires Fresh(l.items, named, r) && IsRead(l.items, named, r)
    ensures Sellable(SellVariant(l, r, quantity, ref).items, named)
         == Sellable(l.items, named) - Min(quantity, Sellable(l.items, named))
  {
    hide Greedy, TotalOf;
    var takes, after := Greedy(r.levels, quantity), SellVariant(l, r, quantity, ref);
    GreedyExact(r.levels, quantity);
    FreshIsSellable(l.items, named, r);
    SellableNotNegative(l.items, named, |l.items|);
    SellLevels(l, r.ids, takes, ref);
    ListingTotal(after.items, named, r.ids, PositiveLevel(after.items), |after.items|);
    SumMinus(Positive(r.levels), takes, Chosen(r.ids, PositiveLevel(after.items)));
  }

  /** With current answers a pass takes of every variant all that its lines ask for, or all there was. */
  lemma {:induction false} FreshPassSells(l: Ledger, lines: seq<Line>, answers: seq<Read>, ref: Ref, variant: string)
    requires ReadsOk(l.items, lines, answers) && AllFresh(l, lines, answers, ref)
    ensures Sellable(SellLines(l, lines, answers, ref).items, variant)
         == Sellable(l.items, variant) - Min(Wanted(lines, variant), Sellable(l.items, variant))
    decreases |lines|
  {
    hide SellVariant, Fresh, TotalOf;
    SellableNotNegative(l.items, variant, |l.items|);
    if lines != [] {
      var next := l;
      if lines[0].variant.Some? {
        next := SellVariant(l, answers[0], lines[0].quantity, ref);
        SellableFalls(l, lines[0].variant.value, answers[0], lines[0].quantity, ref, variant);
      }
      ReadsStayOk(l.items, next.items, lines, answers);
      FreshPassSells(next, lines[1..], answers[1..], ref, variant);
    }
  }

  // ----- Restocks --------------------------------------------------------------------------

  /** The units of the lines whose query answered the item. */
  function PutTo(lines: seq<Line>, targets: seq<Option<nat>>, i: nat): nat
    requires |targets| == |lines|
    decreases |lines|
  {
    if lines == [] then 0
    else
      (if lines[0].variant.Some? && targets[0] == Some(i) then lines[0].quantity else 0)
      + PutTo(lines[1..], targets[1..], i)
  }

  /** Each item goes up by the lines whose query answered it; nothing else about any item changes. */
  lemma {:induction false} RestockLevels(l: Ledger, lines: seq<Line>, targets: seq<Option<nat>>, ref: Ref, i: nat)
    requires TargetsOk(l.items, lines, targets) && i < |l.items|
    ensures var after := Restock(l, lines, targets, ref).items;
            |after| == |l.items|
            && after[i] == l.items[i].(onHand := l.items[i].onHand + PutTo(lines, targets, i))
    decreases |lines|
  {
    hide IsLatest;
    if lines != [] {
      var next := l;
      if lines[0].variant.Some? {
        TargetInRange(l.items, lines[0].variant.value, targets[0]);
        next := RestockVariant(l, targets[0], lines[0].quantity, ref);
      }
      TargetsStayOk(l.items, next.items, lines, targets);
      RestockLevels(next, lines[1..], targets[1..], ref, i);
    }
  }

  lemma {:induction false} TargetInRange(items: seq<Item>, variant: string, target: Option<nat>)
    requires IsLatest(items, variant, target)
    ensures match target
            case Some(i) => i < |items| && items[i].variant == variant
            case None => !Tracked(items, variant)
    ensures Tracked(items, variant) ==> target.Some?
  {
  }

  /** A variant that has an item gets all units returned of it, and no other variant gets any. */
  lemma {:induction false} RestockTotals(l: Ledger, lines: seq<Line>, targets: seq<Option<nat>>, ref: Ref,
                                         variant: string)
    requires TargetsOk(l.items, lines, targets)
    ensures OnHandOf(Restock(l, lines, targets, ref).items, variant)
         == OnHandOf(l.items, variant) + if Tracked(l.items, variant) then Wanted(lines, variant) else 0
    decreases |lines|
  {
    hide IsLatest, OnHandOf, Tracked;
    if lines != [] {
      var next := l;
      if lines[0].variant.Some? {
        TargetInRange(l.items, lines[0].variant.value, targets[0]);
        next := RestockVariant(l, targets[0], lines[0].quantity, ref);
        if targets[0].Some? {
          PostOnHand(l, Move(targets[0].value, RETURN, lines[0].quantity, ref), variant);
          ItemTracked(l.items, targets[0].value);
        }
      }
      TargetsStayOk(l.items, next.items, lines, targets);
      TrackedSame(l.items, next.items, variant);
      RestockTotals(next, lines[1..], targets[1..], ref, variant);
    }
  }

  lemma {:induction false} ItemTracked(items: seq<Item>, i: nat)
    requires i < |items|
    ensures Tracked(items, items[i].variant)
  {
  }

  /** An item whose variant no line names is left alone. */
  lemma {:induction false} RestockLeavesOthers(items: seq<Item>, lines: seq<Line>, targets: seq<Option<nat>>, i: nat)
    requires TargetsOk(items, lines, targets) && i < |items|
    requires forall k :: 0 <= k < |lines| ==> lines[k].variant != Some(items[i].variant)
    ensures PutTo(lines, targets, i) == 0
    decreases |lines|
  {
    if lines != [] {
      if lines[0].variant.Some? {
        TargetInRange(items, lines[0].variant.value, targets[0]);
      }
      RestockLeavesOthers(items, lines[1..], targets[1..], i);
    }
  }

  // ----- Creation and adjustment -----------------------------------------------------------

  lemma {:induction false} FindAppended(items: seq<Item>, it: Item)
    requires FindItem(items, it.variant, it.location) == |items|
    ensures FindItem(items + [it], it.variant, it.location) == |items|
  {
    if items != [] {
      assert (items + [it])[1..] == items[1..] + [it];
      FindAppended(items[1..], it);
    }
  }

  /** A created item is found under its variant and location, holds the initial level, and cannot be created again. */
  lemma {:induction false} CreatedIsFound(l: Ledger, variant: string, location: string, onHand: int, again: int)
    ensures Create(l, variant, location, onHand).Ok? <==>
              forall k :: 0 <= k < |l.items| ==> l.items[k].variant != variant || l.items[k].location != location
    ensures Create(l, variant, location, onHand).Ok? ==>
              var after, i := Create(l, variant, location, onHand).value, |l.items|;
              && |after.items| == i + 1 && after.items[..i] == l.items && FindItem(after.items, variant, location) == i
              && after.items[i].onHand == onHand && after.items[i].reserved == 0
              && Create(after, variant, location, again) == Err(AlreadyExists)
              && after.moves == (if onHand > 0 then l.moves + [Move(i, RECEIVE, onHand, Manual)] else l.moves)
  {
    if FindItem(l.items, variant, location) == |l.items| {
      FindAppended(l.items, Item(variant, location, onHand, 0));
    }
  }

  /** An adjustment is refused exactly when a checked kind would go below zero, and is booked with kind and delta. */
  lemma {:induction false} AdjustBooks(l: Ledger, variant: string, location: string, delta: int, kind: MoveKind,
                                       seen: int)
    ensures var i, r := FindItem(l.items, variant, location), Adjust(l, variant, location, delta, kind, seen);
            && (r.Ok? <==> kind == ADJUSTMENT || (if i < |l.items| then seen else 0) + delta >= 0)
            && (r.Ok? ==>
                  && r.value.moves == l.moves + [Move(i, kind, delta, Manual)]
                  && OnHandOf(r.value.items, variant) == OnHandOf(l.items, variant) + delta)
  {
    hide OnHandOf;
    var i := FindItem(l.items, variant, location);
    if i < |l.items| {
      PostOnHand(l, Move(i, kind, delta, Manual), variant);
    } else {
      NewOnHand(l.items, variant, location, variant);
      PostOnHand(AddItem(l, variant, location, 0), Move(i, kind, delta, Manual), variant);
    }
  }

  lemma {:induction false} NewOnHand(items: seq<Item>, variant: string, location: string, other: string)
    ensures OnHandOf(items + [Item(variant, location, 0, 0)], other) == OnHandOf(items, other)
  {
    assert (items + [Item(variant, location, 0, 0)])[..|items|] == items;
  }
}
