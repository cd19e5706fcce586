/**
 When outdated stock answers are harmless: exactly when they promise no more of an item
 than it holds.
 */
module Promises {
  import opened Text
  import opened Stock

  /** No level that was not negative becomes so, and none sinks further below zero. */
  predicate NoNewDebt(before: seq<Item>, after: seq<Item>) {
    |before| == |after| && forall i :: 0 <= i < |before| ==> Min(0, before[i].onHand) <= after[i].onHand
  }

  // ----- One order line ----------------------------------------------------------------

  /** What an answer promises of an item: the level it saw, and nothing below zero. */
  function Promise(ids: seq<nat>, levels: seq<int>, i: nat): nat
    requires |ids| == |levels|
  {
    if ids == [] then 0 else if ids[0] == i then Max(0, levels[0]) else Promise(ids[1..], levels[1..], i)
  }

  lemma {:induction false} PromiseListed(ids: seq<nat>, levels: seq<int>, k: nat)
    requires |ids| == |levels| && Distinct(ids) && k < |ids|
    ensures Promise(ids, levels, ids[k]) == Max(0, levels[k])
  {
    if k > 0 {
      PromiseListed(ids[1..], levels[1..], k - 1);
    }
  }

  lemma {:induction false} PromiseUnlisted(ids: seq<nat>, levels: seq<int>, i: nat)
    requires |ids| == |levels| && i !in ids
    ensures Promise(ids, levels, i) == 0
    decreases |ids|
  {
    if ids != [] {
      PromiseUnlisted(ids[1..], levels[1..], i);
    }
  }

  /** A need beyond all levels empties every one. */
  lemma {:induction false} GreedyAll(h: seq<int>, need: int)
    requires need >= Sum(Positive(h))
    ensures Greedy(h, need) == Positive(h)
  {
    if h != [] {
      assert Positive(h)[1..] == Positive(h[1..]);
      GreedyExact(h[1..], 0);
      GreedyAll(h[1..], need - Max(0, h[0]));
    }
  }

  /** A line takes at most what the answer promises of an item, and all of it when it asks for enough. */
  lemma {:induction false} LineTakes(l: Ledger, variant: string, r: Read, quantity: nat, ref: Ref, i: nat)
    requires IsRead(l.items, variant, r) && i < |l.items|
    ensures var taken := l.items[i].onHand - SellVariant(l, r, quantity, ref).items[i].onHand;
            && taken <= Promise(r.ids, r.levels, i)
            && (quantity >= Sum(Positive(r.levels)) ==> taken == Promise(r.ids, r.levels, i))
  {
    var takes := Greedy(r.levels, quantity);
    GreedyExact(r.levels, quantity);
    if quantity >= Sum(Positive(r.levels)) {
      GreedyAll(r.levels, quantity);
    }
    SellLevels(l, r.ids, takes, ref);
    if i in r.ids {
      var k :| 0 <= k < |r.ids| && r.ids[k] == i;
      PromiseListed(r.ids, r.levels, k);
      hide Promise, Greedy, Sum, Distinct;
    } else {
      PromiseUnlisted(r.ids, r.levels, i);
    }
  }

  /** The answer overstates no item. */
  predicate Covered(items: seq<Item>, r: Read)
    requires |r.ids| == |r.levels| && InRange(r.ids, |items|)
  {
    forall k :: 0 <= k < |r.ids| ==> r.levels[k] <= Max(0, items[r.ids[k]].onHand)
  }

  ghost predicate LineSafe(l: Ledger, r: Read, ref: Ref)
    requires |r.ids| == |r.levels| && InRange(r.ids, |l.items|)
  {
    forall quantity: nat :: NoNewDebt(l.items, SellVariant(l, r, quantity, ref).items)
  }

  /**
   A line may ask for any quantity without driving a level below zero if and only if its
   answer overstates no item.
   */
  lemma {:induction false} SafeLineIff(l: Ledger, variant: string, r: Read, ref: Ref)
    requires IsRead(l.items, variant, r)
    ensures LineSafe(l, r, ref) <==> Covered(l.items, r)
  {
    hide SellVariant, Sum, Positive;
    if Covered(l.items, r) {
      forall quantity: nat ensures NoNewDebt(l.items, SellVariant(l, r, quantity, ref).items) {
        CoveredLine(l, variant, r, quantity, ref);
      }
    } else {
      var k :| 0 <= k < |r.ids| && r.levels[k] > Max(0, l.items[r.ids[k]].onHand);
      var all := Max(0, Sum(Positive(r.levels)));
      LineTakes(l, variant, r, all, ref, r.ids[k]);
      PromiseListed(r.ids, r.levels, k);
      assert !NoNewDebt(l.items, SellVariant(l, r, all, ref).items);
    }
  }

  lemma {:induction false} CoveredLine(l: Ledger, variant: string, r: Read, quantity: nat, ref: Ref)
    requires IsRead(l.items, variant, r) && Covered(l.items, r)
    ensures NoNewDebt(l.items, SellVariant(l, r, quantity, ref).items)
  {
    forall i | 0 <= i < |l.items|
      ensures Min(0, l.items[i].onHand) <= SellVariant(l, r, quantity, ref).items[i].onHand
    {
      LineTakes(l, variant, r, quantity, ref, i);
      if i in r.ids {
        var k :| 0 <= k < |r.ids| && r.ids[k] == i;
        PromiseListed(r.ids, r.levels, k);
      } else {
        PromiseUnlisted(r.ids, r.levels, i);
      }
      hide SellVariant, Sum, Positive, Promise, Distinct;
    }
  }

  /** A current answer overstates nothing. */
  lemma {:induction false} FreshIsCovered(items: seq<Item>, variant: string, r: Read)
    requires Fresh(items, variant, r) && IsRead(items, variant, r)
    ensures Covered(items, r)
  {
    assert forall k :: 0 <= k < |r.ids| ==> r.levels[k] == Levels(items, r.ids)[k];
  }

  // ----- One pass over an order ----------------------------------------------------------

  /** Every answer of the pass overstates no item at the moment its line sells. */
  ghost predicate AllCovered(l: Ledger, lines: seq<Line>, answers: seq<Read>, ref: Ref)
    requires ReadsOk(l.items, lines, answers)
    decreases |lines|
  {
    lines == []
    || ((lines[0].variant.Some? ==> Covered(l.items, answers[0]))
        && var next := if lines[0].variant.Some? then SellVariant(l, answers[0], lines[0].quantity, ref) else l;
           ReadsStayOk(l.items, next.items, lines, answers);
           AllCovered(next, lines[1..], answers[1..], ref))
  }

  /** Every line of the pass may ask for any quantity instead of its own. */
  ghost predicate AllSafe(l: Ledger, lines: seq<Line>, answers: seq<Read>, ref: Ref)
    requires ReadsOk(l.items, lines, answers)
    decreases |lines|
  {
    lines == []
    || ((lines[0].variant.Some? ==> LineSafe(l, answers[0], ref))
        && var next := if lines[0].variant.Some? then SellVariant(l, answers[0], lines[0].quantity, ref) else l;
           ReadsStayOk(l.items, next.items, lines, answers);
           AllSafe(next, lines[1..], answers[1..], ref))
  }

  lemma {:induction false} AllSafeIff(l: Ledger, lines: seq<Line>, answers: seq<Read>, ref: Ref)
    requires ReadsOk(l.items, lines, answers)
    ensures AllSafe(l, lines, answers, ref) <==> AllCovered(l, lines, answers, ref)
    decreases |lines|
  {
    if lines != [] {
      var next := l;
      if lines[0].variant.Some? {
        next := SellVariant(l, answers[0], lines[0].quantity, ref);
        SafeLineIff(l, lines[0].variant.value, answers[0], ref);
      }
      hide SellVariant, LineSafe, Covered;
      ReadsStayOk(l.items, next.items, lines, answers);
      hide IsRead;
      AllSafeIff(next, lines[1..], answers[1..], ref);
    }
  }

  /** A pass whose answers overstate no item drives no level that was not negative below zero. */
  lemma {:induction false} SellLinesCovered(l: Ledger, lines: seq<Line>, answers: seq<Read>, ref: Ref)
    requires ReadsOk(l.items, lines, answers) && AllCovered(l, lines, answers, ref)
    ensures NoNewDebt(l.items, SellLines(l, lines, answers, ref).items)
    decreases |lines|
  {
    if lines != [] {
      hide SellVariant;
      var next := l;
      if lines[0].variant.Some? {
        next := SellVariant(l, answers[0], lines[0].quantity, ref);
        CoveredLine(l, lines[0].variant.value, answers[0], lines[0].quantity, ref);
      }
      ReadsStayOk(l.items, next.items, lines, answers);
      hide IsRead, Covered;
      SellLinesCovered(next, lines[1..], answers[1..], ref);
    }
  }

  lemma {:induction false} AllFreshCovered(l: Ledger, lines: seq<Line>, answers: seq<Read>, ref: Ref)
    requires ReadsOk(l.items, lines, answers) && AllFresh(l, lines, answers, ref)
    ensures AllCovered(l, lines, answers, ref)
    decreases |lines|
  {
    if lines != [] {
      hide SellVariant;
      var next := l;
      if lines[0].variant.Some? {
        next := SellVariant(l, answers[0], lines[0].quantity, ref);
        FreshIsCovered(l.items, lines[0].variant.value, answers[0]);
      }
      ReadsStayOk(l.items, next.items, lines, answers);
      hide IsRead, Covered, Fresh;
      AllFreshCovered(next, lines[1..], answers[1..], ref);
    }
  }

  /** With current answers, a pass drives no level that was not negative below zero. */
  lemma {:induction false} SellLinesFresh(l: Ledger, lines: seq<Line>, answers: seq<Read>, ref: Ref)
    requires ReadsOk(l.items, lines, answers) && AllFresh(l, lines, answers, ref)
    ensures NoNewDebt(l.items, SellLines(l, lines, answers, ref).items)
  {
    AllFreshCovered(l, lines, answers, ref);
    SellLinesCovered(l, lines, answers, ref);
  }

  // ----- Whatever the pass asks for ----------------------------------------------------------

  /** What the answers of a pass promise of an item together. */
  function Promised(items: seq<Item>, lines: seq<Line>, answers: seq<Read>, i: nat): nat
    requires ReadsOk(items, lines, answers)
    decreases |lines|
  {
    if lines == [] then 0
    else
      (if lines[0].variant.Some? then Promise(answers[0].ids, answers[0].levels, i) else 0)
      + Promised(items, lines[1..], answers[1..], i)
  }

  /** The lines name the same variants, in any quantities. */
  predicate SameRequests(lines: seq<Line>, asked: seq<Line>) {
    |lines| == |asked| && forall k :: 0 <= k < |lines| ==> lines[k].variant == asked[k].variant
  }

  ghost predicate Enough(lines: seq<Line>, answers: seq<Read>)
    requires |answers| == |lines|
  {
    forall k :: 0 <= k < |lines| ==> lines[k].quantity >= Sum(Positive(answers[k].levels))
  }

  lemma {:induction false} PromisedSame(a: seq<Item>, b: seq<Item>, lines: seq<Line>, asked: seq<Line>,
                                        answers: seq<Read>, i: nat)
    requires ReadsOk(a, lines, answers) && ReadsOk(b, asked, answers) && SameRequests(lines, asked)
    ensures Promised(a, lines, answers, i) == Promised(b, asked, answers, i)
    decreases |lines|
  {
    if lines != [] {
      PromisedSame(a, b, lines[1..], asked[1..], answers[1..], i);
      hide Promise, IsRead;
    }
  }

  /** A pass takes at most what its answers promise of an item, and all of it when every line asks for enough. */
  lemma {:induction false} PassTakes(l: Ledger, lines: seq<Line>, answers: seq<Read>, ref: Ref, i: nat)
    requires ReadsOk(l.items, lines, answers) && i < |l.items|
    ensures SameVariants(l.items, SellLines(l, lines, answers, ref).items)
    ensures var taken := l.items[i].onHand - SellLines(l, lines, answers, ref).items[i].onHand;
            && taken <= Promised(l.items, lines, answers, i)
            && (Enough(lines, answers) ==> taken == Promised(l.items, lines, answers, i))
    decreases |lines|
  {
    if lines != [] {
      hide SellVariant, Sum, Positive, Promise;
      var next := l;
      if lines[0].variant.Some? {
        next := SellVariant(l, answers[0], lines[0].quantity, ref);
        LineTakes(l, lines[0].variant.value, answers[0], lines[0].quantity, ref, i);
      }
      ReadsStayOk(l.items, next.items, lines, answers);
      hide IsRead;
      PassTakes(next, lines[1..], answers[1..], ref, i);
      PromisedSame(l.items, next.items, lines[1..], lines[1..], answers[1..], i);
      assert Enough(lines, answers) ==> Enough(lines[1..], answers[1..]);
    }
  }

  /** The same lines, each asking for everything its answer saw. */
  function Greediest(lines: seq<Line>, answers: seq<Read>): seq<Line>
    requires |answers| == |lines|
  {
    seq(|lines|, k requires 0 <= k < |lines| => lines[k].(quantity := Max(0, Sum(Positive(answers[k].levels)))))
  }

  ghost predicate PassSafe(l: Ledger, asked: seq<Line>, answers: seq<Read>, ref: Ref) {
    ReadsOk(l.items, asked, answers) && NoNewDebt(l.items, SellLines(l, asked, answers, ref).items)
  }

  /**
   The lines of a pass may ask for any quantities without driving a level below zero if
   and only if its answers together promise no more of an item than it holds when the
   pass begins.
   */
  lemma {:induction false} SafePassIff(l: Ledger, lines: seq<Line>, answers: seq<Read>, ref: Ref)
    requires ReadsOk(l.items, lines, answers)
    ensures (forall asked: seq<Line> :: SameRequests(lines, asked) ==> PassSafe(l, asked, answers, ref))
            <==> forall i: nat :: i < |l.items| ==> Promised(l.items, lines, answers, i) <= Max(0, l.items[i].onHand)
  {
    hide SellLines, Promised, Sum, Positive;
    if forall i: nat :: i < |l.items| ==> Promised(l.items, lines, answers, i) <= Max(0, l.items[i].onHand) {
      forall asked: seq<Line> | SameRequests(lines, asked) ensures PassSafe(l, asked, answers, ref) {
        SellLinesBounded(l, asked, answers, ref);
        forall i | 0 <= i < |l.items|
          ensures Min(0, l.items[i].onHand) <= SellLines(l, asked, answers, ref).items[i].onHand
        {
          PassTakes(l, asked, answers, ref, i);
          PromisedSame(l.items, l.items, lines, asked, answers, i);
        }
      }
    } else {
      var i: nat :| i < |l.items| && Promised(l.items, lines, answers, i) > Max(0, l.items[i].onHand);
      var asked := Greediest(lines, answers);
      assert SameRequests(lines, asked) && ReadsOk(l.items, asked, answers) && Enough(asked, answers);
      PassTakes(l, asked, answers, ref, i);
      PromisedSame(l.items, l.items, lines, asked, answers, i);
      assert !PassSafe(l, asked, answers, ref);
    }
  }
}
