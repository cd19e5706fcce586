/**
 Greedy near-duplicate removal, by hash distance and by cosine similarity, and the
 frame selection that composes blur pruning with it.
 */
module Dedup {
  import opened Text
  import opened Hashes
  import opened Blur

  // ----- The greedy selection ----------------------------------------------------------

  /** Indices kept out of the first n: those far from every index kept before. */
  function Kept(n: nat, far: (int, int) -> bool): (kept: seq<int>)
  {
    if n == 0 then []
    else
      var before := Kept(n - 1, far);
      if forall j :: j in before ==> far(j, n - 1) then before + [n - 1] else before
  }

  /** An index is kept exactly when no earlier kept index is too close. */
  ghost predicate Canonical(n: nat, far: (int, int) -> bool, kept: iset<int>) {
    forall i :: 0 <= i < n ==> (i in kept <==> forall j :: j in kept && 0 <= j < i ==> far(j, i))
  }

  lemma {:induction false} NoneKept(far: (int, int) -> bool)
    ensures Kept(0, far) == []
  {
  }

  lemma {:induction false} KeptNext(n: nat, far: (int, int) -> bool)
    ensures var before := Kept(n, far);
            Kept(n + 1, far) == if forall j :: j in before ==> far(j, n) then before + [n] else before
  {
  }

  lemma {:induction false} KeptShape(n: nat, far: (int, int) -> bool)
    ensures Selection(Kept(n, far), n)
    ensures forall i :: i in Kept(n, far) ==> 0 <= i < n
    ensures n > 0 ==> Kept(n, far) != [] && Kept(n, far)[0] == 0
    ensures forall i, j :: i in Kept(n, far) && j in Kept(n, far) && i < j ==> far(i, j)
  {
    hide Kept;
    NoneKept(far);
    if n > 0 {
      KeptShape(n - 1, far);
      KeptNext(n - 1, far);
    }
  }

  lemma {:induction false} KeptUnique(n: nat, far: (int, int) -> bool, other: iset<int>)
    requires Canonical(n, far, other)
    ensures forall i :: 0 <= i < n ==> (i in other <==> i in Kept(n, far))
  {
    if n > 0 {
      KeptUnique(n - 1, far, other);
      var before := Kept(n - 1, far);
      assert forall i :: i in before ==> 0 <= i < n - 1 by { KeptShape(n - 1, far); }
      assert n - 1 in Kept(n, far) <==> forall j :: j in before ==> far(j, n - 1);
      assert forall i :: i in Kept(n, far) && i != n - 1 <==> i in before;
      hide Kept;
      assert forall j :: j in before <==> j in other && 0 <= j < n - 1;
    }
  }

  lemma {:induction false} KeptCanonicalBelow(n: nat, far: (int, int) -> bool, i: int)
    requires 0 <= i < n
    ensures i in Kept(n, far) <==> forall j :: j in Kept(n, far) && 0 <= j < i ==> far(j, i)
  {
    KeptShape(n - 1, far);
    if i < n - 1 {
      KeptCanonicalBelow(n - 1, far, i);
    }
  }

  /**
   The greedy result is the only set of indices in which an index is kept exactly when
   no earlier kept one is too close; so it holds the first index, its members are
   pairwise far apart, and every dropped index is close to an earlier kept one.
   */
  lemma {:induction false} GreedyIsCanonical(n: nat, far: (int, int) -> bool, other: iset<int>)
    ensures Selection(Kept(n, far), n) && (n > 0 ==> 0 in Kept(n, far))
    ensures Canonical(n, far, iset i | i in Kept(n, far))
    ensures Canonical(n, far, other) ==> forall i :: 0 <= i < n ==> (i in other <==> i in Kept(n, far))
    ensures forall i, j :: i in Kept(n, far) && j in Kept(n, far) && i < j ==> far(i, j)
    ensures forall i :: 0 <= i < n && i !in Kept(n, far) ==>
              exists j :: j in Kept(n, far) && 0 <= j < i && !far(j, i)
  {
    KeptShape(n, far);
    forall i | 0 <= i < n
      ensures i in Kept(n, far) <==> forall j :: j in Kept(n, far) && 0 <= j < i ==> far(j, i)
    {
      KeptCanonicalBelow(n, far, i);
    }
    if Canonical(n, far, other) {
      KeptUnique(n, far, other);
    }
  }

  /** When everything is far apart, everything is kept. */
  lemma {:induction false} KeepsAll(n: nat, far: (int, int) -> bool)
    requires forall i, j :: 0 <= i < j < n ==> far(i, j)
    ensures Kept(n, far) == Indices(n)
  {
    if n > 0 {
      KeepsAll(n - 1, far);
      assert Indices(n) == Indices(n - 1) + [n - 1];
    }
  }

  function Pick<T>(s: seq<T>, kept: seq<int>): seq<T>
    requires forall i :: 0 <= i < |kept| ==> 0 <= kept[i] < |s|
  {
    seq(|kept|, i requires 0 <= i < |kept| => s[kept[i]])
  }

  // ----- By hash distance --------------------------------------------------------------

  const DEDUP_HAMMING := 6

  function HashFar(hashes: seq<nat>, threshold: nat): (int, int) -> bool {
    (i, j) => 0 <= i < |hashes| && 0 <= j < |hashes| && Distance(hashes[i], hashes[j]) >= threshold
  }

  function DedupeByHash(hashes: seq<nat>, threshold: nat): seq<int> {
    Kept(|hashes|, HashFar(hashes, threshold))
  }

  method ComputeDedupeByHash(hashes: seq<nat>, threshold: nat) returns (kept: seq<int>)
    ensures kept == DedupeByHash(hashes, threshold)
  {
    hide Distance, Kept;
    kept := [];
    NoneKept(HashFar(hashes, threshold));
    var far := HashFar(hashes, threshold);
    for f := 0 to |hashes|
      invariant kept == Kept(f, far)
    {
      KeptShape(f, far);
      KeptNext(f, far);
      var every := true;
      for k := 0 to |kept|
        invariant every <==> forall p :: 0 <= p < k ==> far(kept[p], f)
      {
        assert kept[k] in kept;
        var d := Hamming(hashes[kept[k]], hashes[f]);
        every := every && d >= threshold;
      }
      assert every <==> forall j :: j in kept ==> far(j, f);
      if every {
        kept := kept + [f];
      }
    }
  }

  /** The surviving hashes. */
  function Survivors(hashes: seq<nat>, threshold: nat): seq<nat> {
    KeptShape(|hashes|, HashFar(hashes, threshold));
    Pick(hashes, DedupeByHash(hashes, threshold))
  }

  /** Deduplicating the survivors again drops nothing. */
  lemma {:induction false} DedupeTwice(hashes: seq<nat>, threshold: nat)
    ensures Survivors(Survivors(hashes, threshold), threshold) == Survivors(hashes, threshold)
  {
    var far := HashFar(hashes, threshold);
    KeptShape(|hashes|, far);
    var kept := DedupeByHash(hashes, threshold);
    var once := Pick(hashes, kept);
    forall i, j | 0 <= i < j < |once| ensures HashFar(once, threshold)(i, j) {
      assert kept[i] in kept && kept[j] in kept && far(kept[i], kept[j]);
    }
    KeepsAll(|once|, HashFar(once, threshold));
    assert Pick(once, Indices(|once|)) == once;
  }

  // ----- By cosine similarity ------------------------------------------------------------

  /** A vector component; missing ones read as zero. */
  function At(v: seq<real>, i: nat): real {
    if i < |v| then v[i] else 0.0
  }

  function Dot(a: seq<real>, b: seq<real>, n: nat): real {
    if n == 0 then 0.0 else Dot(a, b, n - 1) + Times(At(a, n - 1), At(b, n - 1))
  }

  function Common(a: seq<real>, b: seq<real>): nat {
    if |a| < |b| then |a| else |b|
  }

  /**
   Whether the cosine similarity is below the threshold, without square roots:
   dot / (sqrt na * sqrt nb) < t, where a degenerate pair has similarity 0.
   */
  predicate CosineBelow(dot: real, na: real, nb: real, t: real) {
    if na == 0.0 || nb == 0.0 then 0.0 < t
    else if t > 0.0 then dot < 0.0 || Times(dot, dot) < Times(Times(t, t), Times(na, nb))
    else dot < 0.0 && Times(dot, dot) > Times(Times(t, t), Times(na, nb))
  }

  predicate SimilarityBelow(a: seq<real>, b: seq<real>, t: real) {
    var n := Common(a, b);
    CosineBelow(Dot(a, b, n), Dot(a, a, n), Dot(b, b, n), t)
  }

  function VectorFar(vectors: seq<seq<real>>, t: real): (int, int) -> bool {
    (i, j) => 0 <= i < |vectors| && 0 <= j < |vectors| && SimilarityBelow(vectors[i], vectors[j], t)
  }

  function SemanticDedupe(vectors: seq<seq<real>>, t: real): seq<int> {
    Kept(|vectors|, VectorFar(vectors, t))
  }

  method ComputeSimilarityBelow(a: seq<real>, b: seq<real>, t: real) returns (below: bool)
    ensures below == SimilarityBelow(a, b, t)
  {
    var n := Common(a, b);
    var dot, na, nb := 0.0, 0.0, 0.0;
    for i := 0 to n
      invariant dot == Dot(a, b, i) && na == Dot(a, a, i) && nb == Dot(b, b, i)
    {
      hide Times;
      dot := dot + Times(At(a, i), At(b, i));
      na := na + Times(At(a, i), At(a, i));
      nb := nb + Times(At(b, i), At(b, i));
    }
    below := CosineBelow(dot, na, nb, t);
  }

  method SemanticDedupeIndices(vectors: seq<seq<real>>, t: real) returns (kept: seq<int>)
    ensures kept == SemanticDedupe(vectors, t)
  {
    hide SimilarityBelow, Kept;
    kept := [];
    NoneKept(VectorFar(vectors, t));
    var far := VectorFar(vectors, t);
    for i := 0 to |vectors|
      invariant kept == Kept(i, far)
    {
      KeptShape(i, far);
      KeptNext(i, far);
      var every := true;
      for k := 0 to |kept|
        invariant every <==> forall p :: 0 <= p < k ==> far(kept[p], i)
      {
        assert kept[k] in kept;
        var below := ComputeSimilarityBelow(vectors[kept[k]], vectors[i], t);
        every := every && below;
      }
      assert every <==> forall j :: j in kept ==> far(j, i);
      if every {
        kept := kept + [i];
      }
    }
  }

  lemma {:induction false} DotSymmetric(a: seq<real>, b: seq<real>, n: nat)
    ensures Dot(a, b, n) == Dot(b, a, n)
  {
    if n > 0 { DotSymmetric(a, b, n - 1); }
  }

  lemma {:induction false} NormSign(a: seq<real>, n: nat)
    ensures Dot(a, a, n) >= 0.0
  {
    if n > 0 {
      hide Times;
      NormSign(a, n - 1);
      SquareSign(At(a, n - 1));
    }
  }

  /** 2 d x y <= p y^2 + q x^2 whenever d^2 <= p q. */
  lemma {:induction false} CrossTerm(d: real, p: real, q: real, x: real, y: real)
    requires p >= 0.0 && q >= 0.0 && Times(d, d) <= Times(p, q)
    ensures 2.0 * Times(d, Times(x, y)) <= Times(p, Times(y, y)) + Times(q, Times(x, x))
  {
    var gap := Times(p, Times(y, y)) + Times(q, Times(x, x)) - 2.0 * Times(d, Times(x, y));
    if p == 0.0 {
      assert Times(p, q) == 0.0;
      assert d == 0.0 by {
        hide Times;
        if d != 0.0 { SquareSign(d); }
      }
      assert gap == q * (x * x);
      SquareSign(x);
      assert q * (x * x) >= 0.0;
    } else {
      CompleteSquare(d, p, q, x, y);
      SquareSign(p * y - d * x);
      assert Times(p, gap) >= 0.0;
      if gap < 0.0 {
        hide Times;
        TimesPositive(p, -gap);
        TimesNegate(p, gap);
      }
    }
  }

  lemma {:induction false} TimesNegate(a: real, b: real)
    ensures Times(a, -b) == -Times(a, b)
  {
  }

  lemma {:induction false} CompleteSquare(d: real, p: real, q: real, x: real, y: real)
    requires Times(d, d) <= Times(p, q)
    ensures Times(p, Times(p, Times(y, y)) + Times(q, Times(x, x)) - 2.0 * Times(d, Times(x, y)))
         >= Square(p * y - d * x)
  {
    var pq, dd, xx := p * q, d * d, x * x;
    assert (p * y - d * x) * (p * y - d * x) == p * (p * (y * y)) - 2.0 * (p * (d * (x * y))) + dd * xx;
    assert p * (p * (y * y) + q * xx - 2.0 * (d * (x * y))) == p * (p * (y * y)) + pq * xx - 2.0 * (p * (d * (x * y)));
    assert xx >= 0.0;
    assert (pq - dd) * xx >= 0.0;
  }

  /** Cauchy-Schwarz for the three running sums: the similarity lies between -1 and 1. */
  lemma {:induction false} CauchySchwarz(a: seq<real>, b: seq<real>, n: nat)
    ensures Times(Dot(a, b, n), Dot(a, b, n)) <= Times(Dot(a, a, n), Dot(b, b, n))
  {
    if n > 0 {
      var d, p, q, x, y := Dot(a, b, n - 1), Dot(a, a, n - 1), Dot(b, b, n - 1), At(a, n - 1), At(b, n - 1);
      hide Times;
      CauchySchwarz(a, b, n - 1);
      NormSign(a, n - 1);
      NormSign(b, n - 1);
      CrossTerm(d, p, q, x, y);
      ExpandProducts(d, p, q, x, y);
    }
  }

  lemma {:induction false} ExpandProducts(d: real, p: real, q: real, x: real, y: real)
    requires Times(d, d) <= Times(p, q)
    requires 2.0 * Times(d, Times(x, y)) <= Times(p, Times(y, y)) + Times(q, Times(x, x))
    ensures Times(d + Times(x, y), d + Times(x, y)) <= Times(p + Times(x, x), q + Times(y, y))
  {
    var xy, xx, yy := x * y, x * x, y * y;
    assert (d + xy) * (d + xy) == d * d + 2.0 * (d * xy) + xy * xy;
    assert (p + xx) * (q + yy) == p * q + p * yy + q * xx + xx * yy;
    assert xy * xy == xx * yy;
  }

  lemma {:induction false} TimesSymmetric(a: real, b: real)
    ensures Times(a, b) == Times(b, a)
  {
  }

  /**
   The comparison is symmetric; a frame is never below a threshold of at most 1
   against itself unless its vector is degenerate.
   */
  lemma {:induction false} SimilarityFacts(a: seq<real>, b: seq<real>, t: real)
    ensures SimilarityBelow(a, b, t) <==> SimilarityBelow(b, a, t)
    ensures 0.0 < t <= 1.0 && Dot(a, a, |a|) != 0.0 ==> !SimilarityBelow(a, a, t)
  {
    hide Times;
    var n := Common(a, b);
    DotSymmetric(a, b, n);
    TimesSymmetric(Dot(a, a, n), Dot(b, b, n));
    NormSign(a, |a|);
    if 0.0 < t <= 1.0 {
      SquareSign(Dot(a, a, |a|));
      UnitThreshold(t, Times(Dot(a, a, |a|), Dot(a, a, |a|)));
    }
  }

  lemma {:induction false} TimesNonNegative(a: real, b: real)
    requires a >= 0.0 && b >= 0.0
    ensures Times(a, b) >= 0.0
  {
    if a > 0.0 && b > 0.0 {
      TimesPositive(a, b);
      hide Times;
    }
  }

  lemma {:induction false} UnitThreshold(t: real, s: real)
    requires 0.0 < t <= 1.0 && s >= 0.0
    ensures Times(Times(t, t), s) <= s
  {
    TimesNonNegative(t, 1.0 - t);
    assert Times(t, 1.0 - t) == t - Times(t, t);
    var u := 1.0 - Times(t, t);
    TimesNonNegative(u, s);
    assert Times(u, s) == s - Times(Times(t, t), s);
  }

  /** No similarity exceeds 1: above it, the threshold drops nothing. */
  lemma {:induction false} NothingDroppedAboveOne(vectors: seq<seq<real>>, t: real)
    requires t > 1.0
    ensures SemanticDedupe(vectors, t) == Indices(|vectors|)
  {
    hide SimilarityBelow;
    forall i, j | 0 <= i < j < |vectors| ensures VectorFar(vectors, t)(i, j) {
      AlwaysBelow(vectors[i], vectors[j], t);
    }
    KeepsAll(|vectors|, VectorFar(vectors, t));
  }

  lemma {:induction false} AlwaysBelow(a: seq<real>, b: seq<real>, t: real)
    requires t > 1.0
    ensures SimilarityBelow(a, b, t)
  {
    hide Times;
    var n := Common(a, b);
    CauchySchwarz(a, b, n);
    NormSign(a, n);
    NormSign(b, n);
    var na, nb := Dot(a, a, n), Dot(b, b, n);
    if na != 0.0 && nb != 0.0 {
      TimesPositive(na, nb);
      AboveUnit(t, Times(na, nb));
    }
  }

  lemma {:induction false} AboveUnit(t: real, s: real)
    requires t > 1.0 && s > 0.0
    ensures s < Times(Times(t, t), s)
  {
    assert t * t > 1.0;
    assert (t * t - 1.0) * s > 0.0;
  }

  // ----- Vectors of different lengths ---------------------------------------------------------

  /** The similarity is zero: it is below exactly the positive thresholds. */
  ghost predicate SimilarityZero(a: seq<real>, b: seq<real>) {
    forall t: real :: SimilarityBelow(a, b, t) <==> 0.0 < t
  }

  /** A positive threshold that a positive similarity reaches. */
  lemma {:induction false} ReachedThreshold(d: real, s: real) returns (t: real)
    requires d > 0.0 && s > 0.0 && Times(d, d) <= s
    ensures t > 0.0 && Times(Times(t, t), s) <= Times(d, d)
  {
    var dd := d * d;
    TimesPositive(d, d);
    t := dd / s;
    assert t * s == dd;
    assert t <= 1.0;
    assert t * t * s == t * dd;
    TimesNonNegative(1.0 - t, dd);
  }

  /**
   Of any two vectors, of equal lengths or not, the similarity is zero if and only if
   their prefixes of common length are orthogonal or one of them is all zeros.
   */
  lemma {:induction false} SimilarityZeroIff(a: seq<real>, b: seq<real>)
    ensures var n := Common(a, b);
            SimilarityZero(a, b) <==> Dot(a, a, n) == 0.0 || Dot(b, b, n) == 0.0 || Dot(a, b, n) == 0.0
  {
    hide Times;
    var n := Common(a, b);
    var d, na, nb := Dot(a, b, n), Dot(a, a, n), Dot(b, b, n);
    NormSign(a, n);
    NormSign(b, n);
    CauchySchwarz(a, b, n);
    hide Dot;
    if na != 0.0 && nb != 0.0 {
      TimesPositive(na, nb);
      if d > 0.0 {
        var t := ReachedThreshold(d, Times(na, nb));
        assert !SimilarityBelow(a, b, t);
      } else if d < 0.0 {
        NegativeBelowZero(d, Times(na, nb));
        assert SimilarityBelow(a, b, 0.0);
      } else {
        forall t: real ensures SimilarityBelow(a, b, t) <==> 0.0 < t {
          OrthogonalBelow(t, Times(na, nb));
        }
      }
    }
  }

  lemma {:induction false} NegativeBelowZero(d: real, s: real)
    requires d < 0.0
    ensures Times(d, d) > Times(Times(0.0, 0.0), s)
  {
    TimesPositive(-d, -d);
  }

  lemma {:induction false} OrthogonalBelow(t: real, s: real)
    requires s > 0.0
    ensures t > 0.0 ==> Times(0.0, 0.0) < Times(Times(t, t), s)
  {
    if t > 0.0 {
      TimesPositive(t, t);
      TimesPositive(Times(t, t), s);
    }
  }

  lemma {:induction false} OneOfTwo(far: (int, int) -> bool)
    requires !far(0, 1)
    ensures Kept(2, far) == [0]
  {
    NoneKept(far);
    KeptNext(0, far);
    KeptNext(1, far);
    hide Kept;
    assert 0 in Kept(1, far);
  }

  lemma {:induction false} PrefixSums()
    ensures var a, b := [1.0], [1.0, 0.1];
            Common(a, b) == 1 && Dot(a, b, 1) == 1.0 && Dot(a, a, 1) == 1.0 && Dot(b, b, 1) == 1.0
  {
  }

  lemma {:induction false} UnitAboveThreshold()
    ensures !CosineBelow(1.0, 1.0, 1.0, 0.92)
  {
  }

  /** Two vectors of different lengths whose similarity is not zero; the second is dropped as a duplicate. */
  lemma {:induction false} DifferentLengthsMerge()
    ensures var a, b := [1.0], [1.0, 0.1];
            |a| != |b| && !SimilarityZero(a, b) && SemanticDedupe([a, b], 0.92) == [0]
  {
    hide Dot, Common, CosineBelow, SimilarityZero, Kept;
    PrefixSums();
    UnitAboveThreshold();
    SimilarityZeroIff([1.0], [1.0, 0.1]);
    OneOfTwo(VectorFar([[1.0], [1.0, 0.1]], 0.92));
  }

  // ----- Selecting the frames of a clip -----------------------------------------------------

  /** What the sampler knows about a decoded frame; a score or hash can be missing. */
  datatype WorkFrame = WorkFrame(timestampMs: int, hash: Option<nat>, blurScore: Option<real>)

  predicate AllScored(frames: seq<WorkFrame>) {
    forall i :: 0 <= i < |frames| ==> frames[i].blurScore.Some?
  }

  predicate AllHashed(frames: seq<WorkFrame>) {
    forall i :: 0 <= i < |frames| ==> frames[i].hash.Some?
  }

  function Scores(frames: seq<WorkFrame>): seq<real>
    requires AllScored(frames)
  {
    seq(|frames|, i requires 0 <= i < |frames| => frames[i].blurScore.value)
  }

  function HashesOf(frames: seq<WorkFrame>): seq<nat>
    requires AllHashed(frames)
  {
    seq(|frames|, i requires 0 <= i < |frames| => frames[i].hash.value)
  }

  /** Blur-prune when every frame has a score. */
  function Prune(frames: seq<WorkFrame>): seq<WorkFrame> {
    if frames != [] && AllScored(frames) then
      PruningShape(Scores(frames), BLUR_REL, MIN_KEEP);
      Pick(frames, SharpFrameIndices(Scores(frames), BLUR_REL, MIN_KEEP))
    else frames
  }

  /** Drop near-identical frames when every frame has a hash. */
  function Thin(frames: seq<WorkFrame>): seq<WorkFrame> {
    if frames != [] && AllHashed(frames) then
      KeptShape(|frames|, HashFar(HashesOf(frames), DEDUP_HAMMING));
      Pick(frames, DedupeByHash(HashesOf(frames), DEDUP_HAMMING))
    else frames
  }

  function SelectFrames(frames: seq<WorkFrame>): seq<WorkFrame> {
    Thin(Prune(frames))
  }

  ghost predicate Subsequence<T>(sub: seq<T>, s: seq<T>) {
    exists kept :: IsPick(sub, s, kept)
  }

  ghost predicate IsPick<T>(sub: seq<T>, s: seq<T>, kept: seq<int>) {
    Selection(kept, |s|) && sub == Pick(s, kept)
  }

  lemma {:induction false} PickAll<T>(s: seq<T>)
    ensures Subsequence(s, s)
  {
    assert Pick(s, Indices(|s|)) == s;
    assert IsPick(s, s, Indices(|s|));
  }

  lemma {:induction false} SubsequenceTransitive<T>(a: seq<T>, b: seq<T>, c: seq<T>)
    requires Subsequence(a, b) && Subsequence(b, c)
    ensures Subsequence(a, c)
  {
    var f :| IsPick(a, b, f);
    var g :| IsPick(b, c, g);
    var h := seq(|f|, i requires 0 <= i < |f| => g[f[i]]);
    assert IsPick(a, c, h);
  }

  lemma {:induction false} PruneShape(frames: seq<WorkFrame>)
    ensures Subsequence(Prune(frames), frames)
    ensures frames != [] ==> Prune(frames) != []
    ensures |frames| >= MIN_KEEP ==> |Prune(frames)| >= MIN_KEEP
  {
    if frames != [] && AllScored(frames) {
      PruningShape(Scores(frames), BLUR_REL, MIN_KEEP);
      hide SharpFrameIndices;
      assert IsPick(Prune(frames), frames, SharpFrameIndices(Scores(frames), BLUR_REL, MIN_KEEP));
    } else {
      PickAll(frames);
    }
  }

  /** With Laplacian variances as scores, pruning keeps at least half of more than two frames. */
  lemma {:induction false} PruneKeepsHalf(frames: seq<WorkFrame>, images: seq<seq<nat>>, w: nat, h: nat)
    requires |images| == |frames| > MIN_KEEP
    requires forall i :: 0 <= i < |frames| ==> frames[i].blurScore == Some(Variance(Laps(images[i], w, Inner(h))))
    ensures |Prune(frames)| >= |frames| - |frames| / 2
  {
    var scores := Scores(frames);
    forall i | 0 <= i < |frames| ensures scores[i] >= 0.0 {
      VarianceNonNegative(Laps(images[i], w, Inner(h)));
    }
    hide Variance, Laps;
    DefaultPruning(scores);
  }

  lemma {:induction false} ThinShape(frames: seq<WorkFrame>)
    ensures Subsequence(Thin(frames), frames)
    ensures frames != [] ==> Thin(frames) != [] && Thin(frames)[0] == frames[0]
    ensures AllHashed(frames) ==> forall i, j :: 0 <= i < j < |Thin(frames)| ==>
              && Thin(frames)[i].hash.Some? && Thin(frames)[j].hash.Some?
              && Distance(Thin(frames)[i].hash.value, Thin(frames)[j].hash.value) >= DEDUP_HAMMING
  {
    if frames != [] && AllHashed(frames) {
      var far := HashFar(HashesOf(frames), DEDUP_HAMMING);
      var kept := Kept(|frames|, far);
      KeptShape(|frames|, far);
      assert IsPick(Thin(frames), frames, kept);
      forall i, j | 0 <= i < j < |kept|
        ensures Distance(frames[kept[i]].hash.value, frames[kept[j]].hash.value) >= DEDUP_HAMMING
      {
        assert kept[i] in kept && kept[j] in kept && far(kept[i], kept[j]);
      }
    } else {
      PickAll(frames);
    }
  }

  /**
   Selection never collapses and never reorders: from a non-empty clip it keeps at
   least one frame, in temporal order, and when every frame has a hash the kept
   frames are pairwise at least the threshold apart.
   */
  lemma {:induction false} SelectFramesShape(frames: seq<WorkFrame>)
    ensures Subsequence(SelectFrames(frames), frames)
    ensures frames != [] ==> SelectFrames(frames) != []
    ensures AllHashed(frames) ==> forall i, j :: 0 <= i < j < |SelectFrames(frames)| ==>
              && SelectFrames(frames)[i].hash.Some? && SelectFrames(frames)[j].hash.Some?
              && Distance(SelectFrames(frames)[i].hash.value, SelectFrames(frames)[j].hash.value) >= DEDUP_HAMMING
  {
    PruneShape(frames);
    ThinShape(Prune(frames));
    SubsequenceTransitive(SelectFrames(frames), Prune(frames), frames);
    if AllHashed(frames) {
      var kept :| IsPick(Prune(frames), frames, kept);
      assert AllHashed(Prune(frames));
    }
    hide Prune, Thin;
  }
}
