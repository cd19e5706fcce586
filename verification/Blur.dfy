/**
 Blur scoring and pruning: the variance of the Laplacian over a grey image, in exact
 arithmetic, and the selection of frames that are not far below the median score.
 */
module Blur {
  import Hashes
  import opened Sorting

  // ----- Variance of the Laplacian ---------------------------------------------------

  function Laplacian(gray: seq<nat>, w: nat, y: nat, x: nat): int {
    var i := y * w + x;
    4 * Hashes.Pixel(gray, i) - Hashes.Pixel(gray, i - 1) - Hashes.Pixel(gray, i + 1)
    - Hashes.Pixel(gray, i - w) - Hashes.Pixel(gray, i + w)
  }

  /** Columns 1 to x - 1 of row y. */
  function RowLaps(gray: seq<nat>, w: nat, y: nat, x: nat): seq<int> {
    if x <= 1 then [] else RowLaps(gray, w, y, x - 1) + [Laplacian(gray, w, y, x - 1)]
  }

  /** The inner columns of rows 1 to y - 1. */
  function Laps(gray: seq<nat>, w: nat, y: nat): seq<int> {
    if y <= 1 then [] else Laps(gray, w, y - 1) + RowLaps(gray, w, y - 1, Inner(w))
  }

  /** One past the last inner row or column. */
  function Inner(n: nat): nat {
    if n == 0 then 0 else n - 1
  }

  function Sum(s: seq<int>): int {
    if s == [] then 0 else Sum(s[..|s| - 1]) + s[|s| - 1]
  }

  function SumSquares(s: seq<int>): int {
    if s == [] then 0 else SumSquares(s[..|s| - 1]) + s[|s| - 1] * s[|s| - 1]
  }

  function Mean(s: seq<int>): real
    requires s != []
  {
    Sum(s) as real / |s| as real
  }

  /** Mean of squares minus square of mean, from the two running sums. */
  function Spread(sum: real, sumSq: real, n: real): real
    requires n > 0.0
  {
    sumSq / n - sum / n * (sum / n)
  }

  function Variance(s: seq<int>): real {
    if s == [] then 0.0 else Spread(Sum(s) as real, SumSquares(s) as real, |s| as real)
  }

  lemma {:induction false} SumSnoc(s: seq<int>, x: int)
    ensures Sum(s + [x]) == Sum(s) + x
    ensures SumSquares(s + [x]) == SumSquares(s) + x * x
  {
    assert (s + [x])[..|s|] == s;
  }

  lemma {:induction false} SumEmpty()
    ensures Sum([]) == 0 && SumSquares([]) == 0
  {
  }

  lemma {:induction false} RowStep(gray: seq<nat>, w: nat, y: nat, x: nat)
    requires x >= 1
    ensures RowLaps(gray, w, y, 1) == []
    ensures RowLaps(gray, w, y, x + 1) == RowLaps(gray, w, y, x) + [Laplacian(gray, w, y, x)]
    ensures x >= w - 1 && (x <= w - 1 || x == 1) ==> RowLaps(gray, w, y, x) == RowLaps(gray, w, y, Inner(w))
  {
  }

  lemma {:induction false} LapsStep(gray: seq<nat>, w: nat, h: nat, y: nat)
    requires y >= 1
    ensures Laps(gray, w, 1) == []
    ensures Laps(gray, w, y + 1) == Laps(gray, w, y) + RowLaps(gray, w, y, Inner(w))
    ensures y >= h - 1 && (y <= h - 1 || y == 1) ==> Laps(gray, w, y) == Laps(gray, w, Inner(h))
  {
  }

  method LaplacianVariance(gray: seq<nat>, w: nat, h: nat) returns (v: real)
    ensures v == Variance(Laps(gray, w, Inner(h)))
  {
    hide Laplacian, Laps, RowLaps, Sum, SumSquares, Inner, Spread;
    var sum, sumSq, n := 0, 0, 0;
    ghost var laps := [];
    var y := 1;
    SumEmpty();
    LapsStep(gray, w, h, 1);
    while y < h - 1
      invariant 1 <= y && (y <= h - 1 || y == 1)
      invariant laps == Laps(gray, w, y)
      invariant sum == Sum(laps) && sumSq == SumSquares(laps) && n == |laps|
    {
      ghost var above := laps;
      var x := 1;
      RowStep(gray, w, y, 1);
      while x < w - 1
        invariant 1 <= x && (x <= w - 1 || x == 1)
        invariant laps == above + RowLaps(gray, w, y, x)
        invariant sum == Sum(laps) && sumSq == SumSquares(laps) && n == |laps|
      {
        var lap := Laplacian(gray, w, y, x);
        SumSnoc(laps, lap);
        RowStep(gray, w, y, x);
        laps := laps + [lap];
        sum := sum + lap;
        sumSq := sumSq + lap * lap;
        n := n + 1;
        x := x + 1;
      }
      RowStep(gray, w, y, x);
      LapsStep(gray, w, h, y);
      y := y + 1;
    }
    LapsStep(gray, w, h, y);
    v := if n == 0 then 0.0 else Spread(sum as real, sumSq as real, n as real);
  }

  function Times(a: real, b: real): real {
    a * b
  }

  function Square(d: real): real {
    Times(d, d)
  }

  /** The sum of squared deviations from m. */
  function Deviations(s: seq<int>, m: real): real {
    if s == [] then 0.0 else Deviations(s[..|s| - 1], m) + Square(s[|s| - 1] as real - m)
  }

  /** The sum of squared deviations from m, from the two sums. */
  function Expanded(sum: real, sumSq: real, n: real, m: real): real {
    sumSq - 2.0 * (m * sum) + n * (m * m)
  }

  lemma {:induction false} ExpandStep(sum: real, sumSq: real, n: real, a: real, m: real)
    ensures Expanded(sum, sumSq, n, m) + Square(a - m) == Expanded(sum + a, sumSq + Square(a), n + 1.0, m)
  {
    assert (a - m) * (a - m) == a * a - 2.0 * (m * a) + m * m;
    assert m * (sum + a) == m * sum + m * a;
    assert (n + 1.0) * (m * m) == n * (m * m) + m * m;
  }

  lemma {:induction false} SquareOfReal(x: int)
    ensures (x * x) as real == Square(x as real)
  {
  }

  lemma {:induction false} TimesPositive(a: real, b: real)
    requires a > 0.0 && b > 0.0
    ensures Times(a, b) > 0.0
  {
  }

  lemma {:induction false} TimesSigns(a: real, b: real)
    ensures Times(-a, -b) == Times(a, b) && Times(0.0, b) == 0.0
  {
  }

  lemma {:induction false} SquareSign(d: real)
    ensures Square(d) >= 0.0 && (d != 0.0 ==> Square(d) > 0.0)
  {
    hide Times;
    TimesSigns(d, d);
    if d > 0.0 {
      TimesPositive(d, d);
    } else if d < 0.0 {
      TimesPositive(-d, -d);
    }
  }

  lemma {:induction false} DeviationsExpand(s: seq<int>, m: real)
    ensures Deviations(s, m) == Expanded(Sum(s) as real, SumSquares(s) as real, |s| as real, m)
  {
    if s != [] {
      hide Expanded, Square;
      var t, x := s[..|s| - 1], s[|s| - 1];
      DeviationsExpand(t, m);
      SquareOfReal(x);
      ExpandStep(Sum(t) as real, SumSquares(t) as real, |t| as real, x as real, m);
    }
  }

  lemma {:induction false} DeviationsSign(s: seq<int>, m: real)
    ensures Deviations(s, m) >= 0.0
    ensures Deviations(s, m) == 0.0 ==> forall i :: 0 <= i < |s| ==> s[i] as real == m
  {
    if s != [] {
      hide Square;
      DeviationsSign(s[..|s| - 1], m);
      SquareSign(s[|s| - 1] as real - m);
    }
  }

  lemma {:induction false} MeanIdentity(sum: real, sumSq: real, n: real)
    requires n > 0.0
    ensures Expanded(sum, sumSq, n, sum / n) / n == Spread(sum, sumSq, n)
  {
    var m := sum / n;
    assert sum == n * m;
    assert m * sum == n * (m * m);
    assert Expanded(sum, sumSq, n, m) == sumSq - n * (m * m);
    assert (sumSq - n * (m * m)) / n == sumSq / n - (n * (m * m)) / n;
    assert (n * (m * m)) / n == m * m;
  }

  lemma {:induction false} QuotientSign(d: real, n: real)
    requires n > 0.0 && d >= 0.0
    ensures d / n >= 0.0 && (d / n == 0.0 <==> d == 0.0)
  {
  }

  /** The running sums give the mean squared deviation, so the score is never negative, and zero only for a constant. */
  lemma {:induction false} VarianceIsMeanDeviation(s: seq<int>)
    requires s != []
    ensures Variance(s) == Deviations(s, Mean(s)) / |s| as real
    ensures Variance(s) >= 0.0
    ensures Variance(s) == 0.0 <==> forall i, j :: 0 <= i < |s| && 0 <= j < |s| ==> s[i] == s[j]
  {
    VarianceQuotient(s);
    DeviationsSign(s, Mean(s));
    QuotientSign(Deviations(s, Mean(s)), |s| as real);
    if forall i, j :: 0 <= i < |s| && 0 <= j < |s| ==> s[i] == s[j] {
      ConstantDeviations(s, s[0]);
      ConstantMean(s, s[0]);
    }
  }

  lemma {:induction false} VarianceQuotient(s: seq<int>)
    requires s != []
    ensures Variance(s) == Deviations(s, Mean(s)) / |s| as real
  {
    DeviationsExpand(s, Mean(s));
    hide SumSquares, Sum, Deviations, Expanded, Spread;
    MeanIdentity(Sum(s) as real, SumSquares(s) as real, |s| as real);
  }

  /** In a constant sequence the mean is the constant, so nothing deviates. */
  lemma {:induction false} ConstantDeviations(s: seq<int>, c: int)
    requires forall i :: 0 <= i < |s| ==> s[i] == c
    ensures Sum(s) == |s| * c && Deviations(s, c as real) == 0.0
  {
    if s != [] {
      ConstantDeviations(s[..|s| - 1], c);
    }
  }

  lemma {:induction false} ConstantMean(s: seq<int>, c: int)
    requires s != [] && Sum(s) == |s| * c
    ensures Mean(s) == c as real
  {
    hide Sum;
    var n := |s| as real;
    assert (|s| * c) as real == n * c as real;
    assert (n * c as real) / n == c as real;
  }

  lemma {:induction false} VarianceNonNegative(s: seq<int>)
    ensures Variance(s) >= 0.0
  {
    if s != [] { VarianceIsMeanDeviation(s); }
  }

  // ----- Pruning by the median -----------------------------------------------------------

  const BLUR_REL := 0.5
  const MIN_KEEP := 2

  function Negated(): real -> real {
    x => -x
  }

  function Ascending(scores: seq<real>): seq<real> {
    Sort(Negated(), scores)
  }

  function Median(scores: seq<real>): real
    requires scores != []
  {
    SortCorrect(Negated(), scores);
    Ascending(scores)[|scores| / 2]
  }

  /** The indices, in order, of the scores that reach the floor. */
  function AtLeast(scores: seq<real>, floor: real): seq<int> {
    if scores == [] then []
    else
      var n := |scores| - 1;
      AtLeast(scores[..n], floor) + if scores[n] >= floor then [n] else []
  }

  function Indices(n: nat): seq<int> {
    seq(n, i => i)
  }

  /** All indices by descending score, ties in temporal order. */
  function Sharpest(scores: seq<real>): seq<int> {
    Sort(Score(scores), Indices(|scores|))
  }

  function SharpFrameIndices(scores: seq<real>, rel: real, minKeep: nat): seq<int> {
    if |scores| <= minKeep then Indices(|scores|)
    else
      var sharp := AtLeast(scores, Median(scores) * rel);
      if |sharp| >= minKeep then sharp
      else
        SortCorrect(Score(scores), Indices(|scores|));
        Sort(Earliest(), Sharpest(scores)[..minKeep])
  }

  lemma {:induction false} AtLeastShape(scores: seq<real>, floor: real)
    ensures var kept := AtLeast(scores, floor);
            && (forall i, j :: 0 <= i < j < |kept| ==> kept[i] < kept[j])
            && (forall i :: i in kept <==> 0 <= i < |scores| && scores[i] >= floor)
  {
    if scores != [] {
      var before := AtLeast(scores[..|scores| - 1], floor);
      AtLeastShape(scores[..|scores| - 1], floor);
      assert forall i :: 0 <= i < |before| ==> before[i] in before;
    }
  }

  function Count(s: seq<real>, floor: real): nat {
    if s == [] then 0 else (if s[0] >= floor then 1 else 0) + Count(s[1..], floor)
  }

  lemma {:induction false} CountSnoc(s: seq<real>, x: real, floor: real)
    ensures Count(s + [x], floor) == Count(s, floor) + if x >= floor then 1 else 0
  {
    if s == [] {
      assert s + [x] == [x];
    } else {
      assert (s + [x])[1..] == s[1..] + [x];
      CountSnoc(s[1..], x, floor);
    }
  }

  lemma {:induction false} AtLeastCount(scores: seq<real>, floor: real)
    ensures |AtLeast(scores, floor)| == Count(scores, floor)
  {
    if scores != [] {
      var n := |scores| - 1;
      AtLeastCount(scores[..n], floor);
      CountSnoc(scores[..n], scores[n], floor);
      assert scores == scores[..n] + [scores[n]];
    }
  }

  lemma {:induction false} CountInsert(key: real -> real, x: real, s: seq<real>, floor: real)
    ensures Count(Insert(key, x, s), floor) == Count(s, floor) + if x >= floor then 1 else 0
  {
    if s == [] || key(s[0]) <= key(x) {
      assert ([x] + s)[1..] == s;
    } else {
      CountInsert(key, x, s[1..], floor);
      assert Insert(key, x, s)[1..] == Insert(key, x, s[1..]);
    }
  }

  lemma {:induction false} CountSort(key: real -> real, s: seq<real>, floor: real)
    ensures Count(Sort(key, s), floor) == Count(s, floor)
  {
    if s != [] {
      CountSort(key, s[1..], floor);
      CountInsert(key, s[0], Sort(key, s[1..]), floor);
    }
  }

  /** In ascending order, everything from position k on reaches the floor if position k does. */
  lemma {:induction false} CountTail(s: seq<real>, k: nat, floor: real)
    requires k < |s| && s[k] >= floor && forall i, j :: 0 <= i < j < |s| ==> s[i] <= s[j]
    ensures Count(s, floor) >= |s| - k
  {
    if k > 0 {
      CountTail(s[1..], k - 1, floor);
    } else if |s| > 1 {
      CountTail(s[1..], 0, floor);
    }
  }

  lemma {:induction false} AscendingSorted(scores: seq<real>)
    ensures var sorted := Ascending(scores);
            |sorted| == |scores| && forall i, j :: 0 <= i < j < |sorted| ==> sorted[i] <= sorted[j]
    ensures forall x :: x in Ascending(scores) <==> x in scores
  {
    var key := Negated();
    SortCorrect(key, scores);
    var sorted := Ascending(scores);
    forall i, j | 0 <= i < j < |sorted| ensures sorted[i] <= sorted[j] {
      assert key(sorted[i]) >= key(sorted[j]);
    }
    forall x ensures x in Ascending(scores) <==> x in scores {
      SortMembers(key, scores, x);
    }
  }

  lemma {:induction false} ShareBelow(m: real, rel: real)
    requires m >= 0.0 && rel <= 1.0
    ensures m * rel <= m
  {
    assert m * (1.0 - rel) >= 0.0;
  }

  lemma {:induction false} HalfReachFloor(scores: seq<real>, floor: real)
    requires scores != [] && floor <= Median(scores)
    ensures |AtLeast(scores, floor)| >= |scores| - |scores| / 2
  {
    AscendingSorted(scores);
    CountTail(Ascending(scores), |scores| / 2, floor);
    CountSort(Negated(), scores, floor);
    AtLeastCount(scores, floor);
  }

  lemma {:induction false} MedianInScores(scores: seq<real>)
    requires scores != []
    ensures Median(scores) in scores
  {
    AscendingSorted(scores);
    assert Median(scores) in Ascending(scores);
  }

  /** At least half of the frames, rounded up, reach any share of the median up to the whole. */
  lemma {:induction false} HalfReachMedian(scores: seq<real>, rel: real)
    requires scores != [] && rel <= 1.0
    requires forall i :: 0 <= i < |scores| ==> scores[i] >= 0.0
    ensures |AtLeast(scores, Median(scores) * rel)| >= |scores| - |scores| / 2
  {
    hide Median, AtLeast;
    MedianInScores(scores);
    ShareBelow(Median(scores), rel);
    HalfReachFloor(scores, Median(scores) * rel);
  }

  /**
   Blur pruning never collapses: while the minimum is at most half the frames, the
   frames that reach the floor are the result, at least half of them, and the
   fallback branch is not taken; with the default minimum it never is.
   */
  lemma {:induction false} PruningKeepsHalf(scores: seq<real>, rel: real, minKeep: nat)
    requires rel <= 1.0 && forall i :: 0 <= i < |scores| ==> scores[i] >= 0.0
    requires |scores| > minKeep && minKeep <= |scores| - |scores| / 2
    ensures var kept := SharpFrameIndices(scores, rel, minKeep);
            && kept == AtLeast(scores, Median(scores) * rel)
            && |kept| >= |scores| - |scores| / 2
  {
    HalfReachMedian(scores, rel);
  }

  lemma {:induction false} DefaultPruning(scores: seq<real>)
    requires |scores| > MIN_KEEP && forall i :: 0 <= i < |scores| ==> scores[i] >= 0.0
    ensures SharpFrameIndices(scores, BLUR_REL, MIN_KEEP) == AtLeast(scores, Median(scores) * BLUR_REL)
    ensures |SharpFrameIndices(scores, BLUR_REL, MIN_KEEP)| >= |scores| - |scores| / 2
  {
    PruningKeepsHalf(scores, BLUR_REL, MIN_KEEP);
  }

  /** Ascending, distinct, in range. */
  ghost predicate Selection(kept: seq<int>, n: nat) {
    && (forall i, j :: 0 <= i < j < |kept| ==> kept[i] < kept[j])
    && (forall i :: 0 <= i < |kept| ==> 0 <= kept[i] < n)
  }

  /** Whatever the scores and settings, the result is in temporal order and as long as the minimum allows. */
  lemma {:induction false} PruningShape(scores: seq<real>, rel: real, minKeep: nat)
    ensures var kept := SharpFrameIndices(scores, rel, minKeep);
            Selection(kept, |scores|) && |kept| >= if |scores| <= minKeep then |scores| else minKeep
  {
    if |scores| > minKeep {
      var sharp := AtLeast(scores, Median(scores) * rel);
      AtLeastShape(scores, Median(scores) * rel);
      hide AtLeast, Median, Sort, Sharpest;
      assert forall i :: 0 <= i < |sharp| ==> sharp[i] in sharp;
      if |sharp| < minKeep {
        FallbackShape(scores, minKeep);
      }
    }
  }

  /** The score of a frame, and the key that puts earlier frames first. */
  function Score(scores: seq<real>): int -> real {
    i => if 0 <= i < |scores| then scores[i] else 0.0
  }

  function Earliest(): int -> real {
    i => -(i as real)
  }

  lemma {:induction false} RankedShape(scores: seq<real>)
    ensures var ranked := Sharpest(scores);
            && |ranked| == |scores|
            && (forall i :: 0 <= i < |ranked| ==> 0 <= ranked[i] < |scores|)
            && (forall i :: 0 <= i < |scores| ==> i in ranked)
            && (forall i, j :: 0 <= i < j < |ranked| ==> ranked[i] != ranked[j])
            && (forall i, j :: 0 <= i < j < |ranked| ==> Score(scores)(ranked[i]) >= Score(scores)(ranked[j]))
  {
    var all := Indices(|scores|);
    SortCorrect(Score(scores), all);
    SortDistinct(Score(scores), all);
    var ranked := Sharpest(scores);
    forall i | 0 <= i < |ranked| ensures 0 <= ranked[i] < |scores| {
      SortMembers(Score(scores), all, ranked[i]);
    }
    forall i | 0 <= i < |scores| ensures i in ranked {
      assert all[i] == i;
      SortMembers(Score(scores), all, i);
    }
  }

  /** The fallback returns exactly the minimum, in temporal order; nothing it drops is sharper than what it keeps. */
  lemma {:induction false} FallbackShape(scores: seq<real>, minKeep: nat)
    requires minKeep < |scores|
    ensures |Sharpest(scores)| == |scores|
    ensures var kept := Sort(Earliest(), Sharpest(scores)[..minKeep]);
            && Selection(kept, |scores|) && |kept| == minKeep
            && forall i, j :: i in kept && 0 <= j < |scores| && j !in kept ==>
                 0 <= i < |scores| && scores[i] >= scores[j]
  {
    RankedShape(scores);
    var ranked := Sharpest(scores);
    var top := ranked[..minKeep];
    SortCorrect(Earliest(), top);
    SortDistinct(Earliest(), top);
    var kept := Sort(Earliest(), top);
    forall i ensures i in kept <==> i in top {
      SortMembers(Earliest(), top, i);
    }
    hide Sharpest, Sort, Earliest, Score;
    KeptInOrder(kept, |scores|);
    forall i, j | i in kept && 0 <= j < |scores| && j !in kept
      ensures 0 <= i < |scores| && scores[i] >= scores[j]
    {
      assert i in top && j in ranked;
      assert forall p :: 0 <= p < minKeep ==> ranked[p] in top;
      TopDominates(scores, ranked, minKeep, i, j);
    }
  }

  lemma {:induction false} KeptInOrder(kept: seq<int>, n: nat)
    requires Sorted(Earliest(), kept)
    requires forall i, j :: 0 <= i < j < |kept| ==> kept[i] != kept[j]
    requires forall i :: i in kept ==> 0 <= i < n
    ensures Selection(kept, n)
  {
    forall i, j | 0 <= i < j < |kept| ensures kept[i] < kept[j] {
      assert Earliest()(kept[i]) >= Earliest()(kept[j]);
    }
    forall i | 0 <= i < |kept| ensures 0 <= kept[i] < n {
      assert kept[i] in kept;
    }
  }

  lemma {:induction false} TopDominates(scores: seq<real>, ranked: seq<int>, n: nat, i: int, j: int)
    requires n <= |ranked| && i in ranked[..n] && j in ranked
    requires forall p :: 0 <= p < n ==> ranked[p] != j
    requires forall p :: 0 <= p < |ranked| ==> 0 <= ranked[p] < |scores|
    requires forall p, q :: 0 <= p < q < |ranked| ==> Score(scores)(ranked[p]) >= Score(scores)(ranked[q])
    ensures 0 <= i < |scores| && 0 <= j < |scores| && scores[i] >= scores[j]
  {
    var p :| 0 <= p < n && ranked[..n][p] == i;
    var q :| 0 <= q < |ranked| && ranked[q] == j;
    assert Score(scores)(ranked[p]) >= Score(scores)(ranked[q]);
  }
}
