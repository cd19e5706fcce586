/**
 The two places where frames are dropped: the sampler, which prunes and then
 deduplicates by hash, and the optional service that deduplicates by image embedding.
 */
module Sampler {
  import opened Text
  import opened Blur
  import opened Dedup

  // ----- The sampler -------------------------------------------------------------------

  /** The variable that first holds all frames, then the sharp ones, then the distinct ones. */
  method SelectKept(frames: seq<WorkFrame>) returns (kept: seq<WorkFrame>)
    ensures kept == SelectFrames(frames)
  {
    kept := frames;
    if |kept| > 0 && AllScored(kept) {
      PruningShape(Scores(kept), BLUR_REL, MIN_KEEP);
      kept := Pick(kept, SharpFrameIndices(Scores(kept), BLUR_REL, MIN_KEEP));
    }
    assert kept == Prune(frames);
    if |kept| > 0 && AllHashed(kept) {
      KeptShape(|kept|, HashFar(HashesOf(kept), DEDUP_HAMMING));
      var distinct := ComputeDedupeByHash(HashesOf(kept), DEDUP_HAMMING);
      kept := Pick(kept, distinct);
    }
  }

  // ----- What the similarity test means ---------------------------------------------------

  lemma {:induction false} SquareOrder(x: real, y: real)
    requires x >= 0.0 && y >= 0.0
    ensures x < y <==> Times(x, x) < Times(y, y)
  {
    assert y * y - x * x == (y - x) * (y + x);
    if x < y {
      TimesPositive(y - x, y + x);
    } else if y + x > 0.0 {
      assert (x - y) * (y + x) >= 0.0;
    }
  }

  lemma {:induction false} ProductOfRoots(s: real, q: real)
    ensures Times(Times(s, q), Times(s, q)) == Times(Times(s, s), Times(q, q))
  {
    assert s * q * (s * q) == s * s * (q * q);
  }

  lemma {:induction false} ScaledSquare(t: real, m: real)
    ensures Times(Times(t, m), Times(t, m)) == Times(Times(t, t), Times(m, m))
    ensures m > 0.0 && t > 0.0 ==> Times(t, m) > 0.0
    ensures m > 0.0 && t <= 0.0 ==> Times(t, m) <= 0.0
  {
    ProductOfRoots(t, m);
    if m > 0.0 && t > 0.0 { assert t * m > 0.0; }
    if m > 0.0 && t <= 0.0 { assert (-t) * m >= 0.0; }
  }

  lemma {:induction false} Distribute(t: real, u: real, m: real)
    ensures Times(t - u, m) == Times(t, m) - Times(u, m)
  {
  }

  lemma {:induction false} QuotientTimes(dot: real, m: real)
    requires m > 0.0
    ensures Times(dot / m, m) == dot
  {
  }

  lemma {:induction false} QuotientBelow(dot: real, m: real, t: real)
    requires m > 0.0
    ensures dot / m < t <==> dot < Times(t, m)
  {
    hide Times;
    var u := dot / m;
    QuotientTimes(dot, m);
    if u < t {
      TimesPositive(t - u, m);
      Distribute(t, u, m);
    } else {
      TimesNonNegative(u - t, m);
      Distribute(u, t, m);
    }
  }

  lemma {:induction false} NegativeSquare(x: real)
    ensures Times(-x, -x) == Times(x, x)
  {
  }

  /** With the square roots s and q of the two norms, the test is dot / (s q) < t. */
  lemma {:induction false} CosineBelowIsQuotient(dot: real, s: real, q: real, t: real)
    requires s > 0.0 && q > 0.0
    ensures Times(s, q) > 0.0
    ensures CosineBelow(dot, Times(s, s), Times(q, q), t) <==> dot / Times(s, q) < t
  {
    var m := Times(s, q);
    ScaledSquare(s, q);
    ScaledSquare(s, s);
    ScaledSquare(q, q);
    QuotientBelow(dot, m, t);
    ProductOfRoots(s, q);
    ScaledSquare(t, m);
    NegativeSquare(dot);
    NegativeSquare(Times(t, m));
    hide Times;
    if t > 0.0 {
      if dot >= 0.0 { SquareOrder(dot, Times(t, m)); }
    } else if dot < 0.0 {
      SquareOrder(-Times(t, m), -dot);
    }
  }

  // ----- Deduplication by embedding -------------------------------------------------------

  const DEFAULT_THRESHOLD := 0.92

  /** A configured threshold outside (0, 1] is ignored. */
  function ThresholdOf(configured: Option<real>): (t: real)
    ensures 0.0 < t <= 1.0
  {
    if configured.Some? && 0.0 < configured.value <= 1.0 then configured.value else DEFAULT_THRESHOLD
  }

  /** `vectors` is what the embedder answered; None when it is disabled or failed. */
  function DedupeFrames<T>(frames: seq<T>, vectors: Option<seq<seq<real>>>, t: real): seq<T> {
    if |frames| < 2 || vectors == None || |vectors.value| != |frames| then frames
    else
      KeptShape(|vectors.value|, VectorFar(vectors.value, t));
      Pick(frames, SemanticDedupe(vectors.value, t))
  }

  method ComputeDedupeFrames<T>(frames: seq<T>, vectors: Option<seq<seq<real>>>, t: real) returns (out: seq<T>)
    ensures out == DedupeFrames(frames, vectors, t)
  {
    if |frames| < 2 || vectors == None {
      return frames;
    }
    if |vectors.value| != |frames| {
      return frames;
    }
    var keep := SemanticDedupeIndices(vectors.value, t);
    KeptShape(|frames|, VectorFar(vectors.value, t));
    out := FilterByIndex(frames, keep);
    if 0 < |out| < |frames| {
      return out;
    }
    AllKept(|frames|, keep);
    assert Pick(frames, Indices(|frames|)) == frames;
    return frames;
  }

  /** Keep the frames whose index is in the set, in order. */
  method FilterByIndex<T>(frames: seq<T>, keep: seq<int>) returns (out: seq<T>)
    requires Selection(keep, |frames|)
    ensures out == Pick(frames, keep)
  {
    out := [];
    ghost var k := 0;
    for i := 0 to |frames|
      invariant 0 <= k <= |keep| && out == Pick(frames, keep[..k])
      invariant forall j :: 0 <= j < k ==> keep[j] < i
      invariant forall j :: k <= j < |keep| ==> keep[j] >= i
    {
      if i in keep {
        assert keep[k] == i;
        assert keep[..k + 1] == keep[..k] + [i];
        out := out + [frames[i]];
        k := k + 1;
      }
    }
    assert keep[..k] == keep;
  }

  lemma {:induction false} SelectionBounds(keep: seq<int>, n: nat, i: nat)
    requires Selection(keep, n) && i < |keep|
    ensures i <= keep[i]
    ensures keep[|keep| - 1 - i] <= n - 1 - i
  {
    if i > 0 {
      SelectionBounds(keep, n, i - 1);
    }
  }

  /** As many ascending indices as there are frames are all the indices. */
  lemma {:induction false} AllKept(n: nat, keep: seq<int>)
    requires Selection(keep, n) && |keep| >= n
    ensures keep == Indices(n)
  {
    if keep != [] {
      SelectionBounds(keep, n, 0);
      SelectionBounds(keep, n, |keep| - 1);
      assert 0 <= keep[0] <= n - |keep|;
    }
    forall i | 0 <= i < |keep| ensures keep[i] == i {
      SelectionBounds(keep, n, i);
      SelectionBounds(keep, n, |keep| - 1 - i);
    }
  }

  /**
   The service never returns an empty list for a non-empty one, keeps the frames in
   order and the first one always; when the embedder answers with one vector a frame,
   the kept frames are pairwise below the threshold.
   */
  lemma {:induction false} DedupeFramesShape<T>(frames: seq<T>, vectors: Option<seq<seq<real>>>, t: real)
    ensures var out := DedupeFrames(frames, vectors, t);
            && Subsequence(out, frames)
            && (frames != [] ==> out != [] && out[0] == frames[0])
            && (|frames| < 2 || vectors == None || |vectors.value| != |frames| ==> out == frames)
            && (|frames| >= 2 && vectors.Some? && |vectors.value| == |frames| ==>
                  exists kept :: IsPick(out, frames, kept)
                    && forall i, j :: 0 <= i < j < |kept| ==>
                         SimilarityBelow(vectors.value[kept[i]], vectors.value[kept[j]], t))
  {
    if |frames| < 2 || vectors == None || |vectors.value| != |frames| {
      PickAll(frames);
    } else {
      var vs := vectors.value;
      var kept := SemanticDedupe(vs, t);
      KeptShape(|vs|, VectorFar(vs, t));
      assert IsPick(DedupeFrames(frames, vectors, t), frames, kept);
      hide SimilarityBelow;
      forall i, j | 0 <= i < j < |kept| ensures SimilarityBelow(vs[kept[i]], vs[kept[j]], t) {
        assert kept[i] in kept && kept[j] in kept && VectorFar(vs, t)(kept[i], kept[j]);
      }
    }
  }

  /** Deduplicating the survivors again drops nothing. */
  lemma {:induction false} SemanticDedupeTwice(vectors: seq<seq<real>>, t: real)
    ensures var kept := SemanticDedupe(vectors, t);
            && Selection(kept, |vectors|)
            && SemanticDedupe(Pick(vectors, kept), t) == Indices(|kept|)
  {
    hide SimilarityBelow;
    var far := VectorFar(vectors, t);
    KeptShape(|vectors|, far);
    var kept := SemanticDedupe(vectors, t);
    var once := Pick(vectors, kept);
    forall i, j | 0 <= i < j < |once| ensures VectorFar(once, t)(i, j) {
      assert kept[i] in kept && kept[j] in kept && far(kept[i], kept[j]);
    }
    KeepsAll(|once|, VectorFar(once, t));
  }
}
