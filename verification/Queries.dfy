/** Answers to the stock queries exist in every state, so the theorems about them are about something. */
module Queries {
  import opened Text
  import opened Sorting
  import S = Stock

  /** The variant's items among the first n, in table order. */
  function IdsOf(items: seq<S.Item>, variant: string, n: nat): (ids: seq<nat>)
    requires n <= |items|
    ensures forall i :: i in ids <==> 0 <= i < n && items[i].variant == variant
    ensures S.Distinct(ids)
  {
    if n == 0 then []
    else IdsOf(items, variant, n - 1) + if items[n - 1].variant == variant then [n - 1] else []
  }

  function LevelOf(items: seq<S.Item>): nat -> real {
    (i: nat) => if i < |items| then items[i].onHand as real else 0.0
  }

  /** All items of the variant, highest level first, ties in table order. */
  function Answer(items: seq<S.Item>, variant: string): S.Read {
    var ids := Sort(LevelOf(items), IdsOf(items, variant, |items|));
    S.Read(ids, S.Levels(items, ids))
  }

  /** A stable sort by descending on-hand is a current answer. */
  lemma {:induction false} AnswerIsFresh(items: seq<S.Item>, variant: string)
    ensures S.Fresh(items, variant, Answer(items, variant))
  {
    hide Sort, IdsOf;
    var all := IdsOf(items, variant, |items|);
    var ids := Answer(items, variant).ids;
    SortCorrect(LevelOf(items), all);
    SortDistinct(LevelOf(items), all);
    forall i ensures i in ids <==> i in all {
      SortMembers(LevelOf(items), all, i);
    }
    forall j, k | 0 <= j < k < |ids| ensures S.Levels(items, ids)[j] >= S.Levels(items, ids)[k] {
      assert ids[j] in ids && ids[k] in ids;
      assert LevelOf(items)(ids[j]) >= LevelOf(items)(ids[k]);
    }
  }

  /** The item entered last stands for the one updated last. */
  function Latest(items: seq<S.Item>, variant: string): Option<nat> {
    var ids := IdsOf(items, variant, |items|);
    if ids == [] then None else Some(ids[|ids| - 1])
  }

  lemma {:induction false} LatestIsLawful(items: seq<S.Item>, variant: string)
    ensures S.IsLatest(items, variant, Latest(items, variant))
  {
    var ids := IdsOf(items, variant, |items|);
    if ids == [] {
      forall k | 0 <= k < |items| ensures items[k].variant != variant {
        assert k !in ids;
      }
    } else {
      assert ids[|ids| - 1] in ids;
    }
  }

  /** The restock queries of a return can always be answered. */
  lemma {:induction false} TargetsExist(items: seq<S.Item>, lines: seq<S.Line>) returns (targets: seq<Option<nat>>)
    ensures S.TargetsOk(items, lines, targets)
  {
    targets := seq(|lines|, k requires 0 <= k < |lines| =>
      if lines[k].variant.Some? then Latest(items, lines[k].variant.value) else None);
    forall k | 0 <= k < |lines| && lines[k].variant.Some?
      ensures S.IsLatest(items, lines[k].variant.value, targets[k])
    {
      LatestIsLawful(items, lines[k].variant.value);
    }
  }

  /** Every pass over order lines can be answered currently throughout. */
  lemma {:induction false} FreshPassExists(l: S.Ledger, lines: seq<S.Line>, ref: S.Ref) returns (answers: seq<S.Read>)
    ensures S.ReadsOk(l.items, lines, answers) && S.AllFresh(l, lines, answers, ref)
    decreases |lines|
  {
    if lines == [] {
      answers := [];
    } else {
      var first, next := S.Read([], []), l;
      if lines[0].variant.Some? {
        first := Answer(l.items, lines[0].variant.value);
        AnswerIsFresh(l.items, lines[0].variant.value);
        S.FreshIsRead(l.items, lines[0].variant.value, first);
        next := S.SellVariant(l, first, lines[0].quantity, ref);
      }
      hide Answer, S.Fresh, S.IsRead, S.SellVariant;
      var rest := FreshPassExists(next, lines[1..], ref);
      answers := [first] + rest;
      PrependAnswer(l, next, lines, first, rest, ref);
    }
  }

  lemma {:induction false} PrependAnswer(l: S.Ledger, next: S.Ledger, lines: seq<S.Line>, first: S.Read,
                                         rest: seq<S.Read>, ref: S.Ref)
    requires lines != [] && S.SameVariants(l.items, next.items)
    requires S.ReadsOk(next.items, lines[1..], rest) && S.AllFresh(next, lines[1..], rest, ref)
    requires if lines[0].variant.Some? then
               && S.Fresh(l.items, lines[0].variant.value, first) && S.IsRead(l.items, lines[0].variant.value, first)
               && next == S.SellVariant(l, first, lines[0].quantity, ref)
             else next == l
    ensures S.ReadsOk(l.items, lines, [first] + rest) && S.AllFresh(l, lines, [first] + rest, ref)
  {
    var answers := [first] + rest;
    assert answers[1..] == rest;
    forall k | 0 <= k < |lines| && lines[k].variant.Some?
      ensures S.IsRead(l.items, lines[k].variant.value, answers[k])
    {
      if k > 0 {
        assert lines[1..][k - 1] == lines[k] && rest[k - 1] == answers[k];
      }
    }
    hide S.Fresh, S.IsRead, S.SellVariant;
  }
}
