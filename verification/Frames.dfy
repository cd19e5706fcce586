/** Which frames of a clip are kept, decided frame by frame, and what the scores and hashes see in an image. */
module Frames {
  import opened Text
  import opened Sorting
  import opened Hashes
  import opened Blur
  import opened Dedup
  import opened Sampler

  // ----- The median -------------------------------------------------------------------------

  function CountIf(s: seq<real>, p: real -> bool): nat {
    if s == [] then 0 else (if p(s[0]) then 1 else 0) + CountIf(s[1..], p)
  }

  lemma {:induction false} CountIfInsert(key: real -> real, x: real, s: seq<real>, p: real -> bool)
    ensures CountIf(Insert(key, x, s), p) == CountIf(s, p) + if p(x) then 1 else 0
  {
    if s == [] || key(s[0]) <= key(x) {
      assert ([x] + s)[1..] == s;
    } else {
      CountIfInsert(key, x, s[1..], p);
      assert Insert(key, x, s)[1..] == Insert(key, x, s[1..]);
    }
  }

  lemma {:induction false} CountIfSort(key: real -> real, s: seq<real>, p: real -> bool)
    ensures CountIf(Sort(key, s), p) == CountIf(s, p)
  {
    if s != [] {
      CountIfSort(key, s[1..], p);
      CountIfInsert(key, s[0], Sort(key, s[1..]), p);
    }
  }

  lemma {:induction false} CountIfTail(s: seq<real>, k: nat, p: real -> bool)
    requires k <= |s| && forall i :: 0 <= i < k ==> !p(s[i])
    ensures CountIf(s, p) <= |s| - k
  {
    if k > 0 {
      CountIfTail(s[1..], k - 1, p);
    } else if s != [] {
      CountIfTail(s[1..], 0, p);
    }
  }

  lemma {:induction false} CountIfHead(s: seq<real>, k: nat, p: real -> bool)
    requires k <= |s| && forall i :: k <= i < |s| ==> !p(s[i])
    ensures CountIf(s, p) <= k
  {
    if s != [] {
      if k > 0 {
        CountIfHead(s[1..], k - 1, p);
      } else {
        CountIfTail(s, |s|, p);
      }
    }
  }

  /** The median is a score; at most half of the scores, rounded down, lie below it, and fewer than the rest above. */
  lemma {:induction false} MedianSplits(scores: seq<real>)
    requires scores != []
    ensures Median(scores) in scores
    ensures CountIf(scores, x => x < Median(scores)) <= |scores| / 2
    ensures CountIf(scores, x => x > Median(scores)) < |scores| - |scores| / 2
  {
    hide Sort;
    var m, sorted, k := Median(scores), Ascending(scores), |scores| / 2;
    var below, above := x => x < Median(scores), x => x > Median(scores);
    MedianInScores(scores);
    AscendingSorted(scores);
    CountIfSort(Negated(), scores, below);
    CountIfSort(Negated(), scores, above);
    CountIfHead(sorted, k, below);
    CountIfTail(sorted, k + 1, above);
  }

  // ----- What the scores and hashes see ------------------------------------------------------

  lemma {:induction false} RowAndColumn(r: nat, c: nat)
    requires r < 8 && c < 8
    ensures (8 * r + c) / 8 == r && (8 * r + c) % 8 == c
  {
  }

  /** Bit c of row r says whether the pixel in column c is brighter than the one to its right. */
  lemma {:induction false} HashByRows(gray: seq<nat>, r: nat, c: nat)
    requires |gray| == 72 && r < 8 && c < 8
    ensures Bit(DHash(gray), 8 * r + c) <==> gray[9 * r + c] > gray[9 * r + c + 1]
  {
    hide Bit, DHash;
    DHashBits(gray);
    RowAndColumn(r, c);
  }

  /** The stencil compares a pixel with its four neighbours. */
  lemma {:induction false} LaplacianIsDifferences(gray: seq<nat>, w: nat, y: nat, x: nat)
    requires 0 < y && 0 < x && x + 1 < w && (y + 1) * w + x < |gray|
    ensures w <= y * w && y * w + x + 1 < |gray|
    ensures var p: int := gray[y * w + x];
            Laplacian(gray, w, y, x)
            == (p - gray[y * w + x - 1]) + (p - gray[y * w + x + 1])
               + (p - gray[y * w - w + x]) + (p - gray[y * w + w + x])
  {
    assert (y + 1) * w == y * w + w;
    assert y * w - w == (y - 1) * w;
    assert (y - 1) * w >= 0;
  }

  /** Row by row, the scored values are those of all inner pixels. */
  lemma {:induction false} RowLapsAt(gray: seq<nat>, w: nat, y: nat, x: nat, k: nat)
    requires 1 <= k < x
    ensures |RowLaps(gray, w, y, x)| == x - 1 && RowLaps(gray, w, y, x)[k - 1] == Laplacian(gray, w, y, k)
  {
    hide Laplacian;
    if k < x - 1 {
      RowLapsAt(gray, w, y, x - 1, k);
    } else if x > 2 {
      RowLapsAt(gray, w, y, x - 1, 1);
    }
  }

  lemma {:induction false} RowLapsSize(gray: seq<nat>, w: nat, y: nat, x: nat)
    ensures |RowLaps(gray, w, y, x)| == if x <= 1 then 0 else x - 1
  {
    if x > 1 {
      RowLapsSize(gray, w, y, x - 1);
    }
  }

  lemma {:induction false} LapsSize(gray: seq<nat>, w: nat, y: nat)
    requires w >= 2
    ensures |Laps(gray, w, y)| == if y <= 1 then 0 else (y - 1) * (w - 2)
  {
    hide RowLaps;
    if y > 1 {
      LapsSize(gray, w, y - 1);
      RowLapsSize(gray, w, y - 1, w - 1);
      if y > 2 {
        assert (y - 1) * (w - 2) == (y - 2) * (w - 2) + (w - 2);
      }
    }
  }

  /** The value at row r and column c of the inner pixels. */
  lemma {:induction false} LapsAt(gray: seq<nat>, w: nat, y: nat, r: nat, c: nat)
    requires w >= 3 && 1 <= r < y && 1 <= c < w - 1
    ensures var at := (r - 1) * (w - 2) + c - 1;
            0 <= at < |Laps(gray, w, y)| && Laps(gray, w, y)[at] == Laplacian(gray, w, r, c)
  {
    hide RowLaps, Laplacian;
    LapsSize(gray, w, y - 1);
    RowLapsSize(gray, w, y - 1, w - 1);
    if r < y - 1 {
      LapsAt(gray, w, y - 1, r, c);
    } else {
      RowLapsAt(gray, w, r, w - 1, c);
      LastRow(gray, w, y, c);
    }
  }

  lemma {:induction false} LastRow(gray: seq<nat>, w: nat, y: nat, c: nat)
    requires w >= 3 && y > 1 && 1 <= c < w - 1
    requires |RowLaps(gray, w, y - 1, w - 1)| == w - 2
    ensures |Laps(gray, w, y - 1)| == (y - 2) * (w - 2)
    ensures Laps(gray, w, y)[(y - 2) * (w - 2) + c - 1] == RowLaps(gray, w, y - 1, w - 1)[c - 1]
  {
    hide RowLaps;
    LapsSize(gray, w, y - 1);
  }

  // ----- Frame by frame ----------------------------------------------------------------------

  /** Scores, where all frames have them, are not negative, as variances are. */
  predicate ScoresSound(frames: seq<WorkFrame>) {
    forall i :: 0 <= i < |frames| && frames[i].blurScore.Some? ==> frames[i].blurScore.value >= 0.0
  }

  /** The frame survives blur pruning: its score reaches half the median, where more than two frames are scored. */
  predicate Sharp(frames: seq<WorkFrame>, i: int) {
    0 <= i < |frames|
    && (AllScored(frames) && |frames| > 2 ==>
          frames[i].blurScore.value >= Median(Scores(frames)) * 0.5)
  }

  ghost predicate SharpHashed(frames: seq<WorkFrame>) {
    forall i :: Sharp(frames, i) ==> frames[i].hash.Some?
  }

  /** The indices that pruning keeps. */
  function PrunedIndices(frames: seq<WorkFrame>): seq<int> {
    if frames != [] && AllScored(frames) then SharpFrameIndices(Scores(frames), BLUR_REL, MIN_KEEP)
    else Indices(|frames|)
  }

  /** The indices that deduplication keeps. */
  function ThinnedIndices(frames: seq<WorkFrame>): seq<int> {
    if frames != [] && AllHashed(frames) then DedupeByHash(HashesOf(frames), DEDUP_HAMMING) else Indices(|frames|)
  }

  lemma {:induction false} PickPruned(frames: seq<WorkFrame>)
    ensures Selection(PrunedIndices(frames), |frames|)
    ensures Prune(frames) == Pick(frames, PrunedIndices(frames))
  {
    hide SharpFrameIndices;
    if frames != [] && AllScored(frames) {
      PruningShape(Scores(frames), BLUR_REL, MIN_KEEP);
    } else {
      assert Pick(frames, Indices(|frames|)) == frames;
    }
  }

  lemma {:induction false} PickThinned(frames: seq<WorkFrame>)
    ensures Selection(ThinnedIndices(frames), |frames|)
    ensures Thin(frames) == Pick(frames, ThinnedIndices(frames))
  {
    hide Kept;
    if frames != [] && AllHashed(frames) {
      KeptShape(|frames|, HashFar(HashesOf(frames), DEDUP_HAMMING));
    } else {
      assert Pick(frames, Indices(|frames|)) == frames;
    }
  }

  /** The members of f at the places in g. */
  function Compose(f: seq<int>, g: seq<int>): seq<int> {
    seq(|g|, k requires 0 <= k < |g| => if 0 <= g[k] < |f| then f[g[k]] else 0)
  }

  lemma {:induction false} ComposePicks<T>(s: seq<T>, f: seq<int>, g: seq<int>)
    requires Selection(f, |s|) && Selection(g, |f|)
    ensures Selection(Compose(f, g), |s|)
    ensures Pick(Pick(s, f), g) == Pick(s, Compose(f, g))
  {
  }

  /** The indices that selection keeps. */
  function SelectedIndices(frames: seq<WorkFrame>): seq<int> {
    Compose(PrunedIndices(frames), ThinnedIndices(Prune(frames)))
  }

  /** They name the selected frames, in temporal order. */
  lemma {:induction false} SelectedPick(frames: seq<WorkFrame>)
    ensures Selection(SelectedIndices(frames), |frames|)
    ensures SelectFrames(frames) == Pick(frames, SelectedIndices(frames))
  {
    hide PrunedIndices, ThinnedIndices, Prune, Thin, Selection, Compose;
    PickPruned(frames);
    PickThinned(Prune(frames));
    ComposePicks(frames, PrunedIndices(frames), ThinnedIndices(Prune(frames)));
  }

  lemma {:induction false} PrunedAreSharp(frames: seq<WorkFrame>)
    requires ScoresSound(frames)
    ensures forall i :: i in PrunedIndices(frames) <==> Sharp(frames, i)
  {
    hide Median, AtLeast;
    if frames != [] && AllScored(frames) && |frames| > 2 {
      var scores := Scores(frames);
      assert forall i :: 0 <= i < |scores| ==> scores[i] >= 0.0;
      DefaultPruning(scores);
      AtLeastShape(scores, Median(scores) * BLUR_REL);
    } else {
      IndicesMembers(|frames|);
    }
  }

  lemma {:induction false} IndicesMembers(n: nat)
    ensures forall i :: i in Indices(n) <==> 0 <= i < n
  {
    forall i ensures i in Indices(n) <==> 0 <= i < n {
      if 0 <= i < n {
        assert Indices(n)[i] == i;
      }
    }
  }

  /**
   A frame is kept exactly when it is sharp and, where all sharp frames have hashes, far
   from every kept frame before it.
   */
  lemma {:induction false} SelectedIff(frames: seq<WorkFrame>, i: int)
    requires ScoresSound(frames)
    ensures i in SelectedIndices(frames) <==>
              && Sharp(frames, i)
              && (SharpHashed(frames) ==>
                    forall j :: j in SelectedIndices(frames) && j < i ==>
                      0 <= j < |frames| && frames[j].hash.Some? && frames[i].hash.Some?
                      && Distance(frames[j].hash.value, frames[i].hash.value) >= 6)
  {
    hide *;
    PrunedAreSharp(frames);
    PickPruned(frames);
    SelectedFromPruned(frames);
    var pruned := PrunedIndices(frames);
    if i in pruned {
      var k :| 0 <= k < |pruned| && pruned[k] == i;
      SelectedInPruned(frames, k);
    }
  }

  /** The rule for the frame that pruning leaves at place k. */
  lemma {:induction false} SelectedInPruned(frames: seq<WorkFrame>, k: int)
    requires ScoresSound(frames) && 0 <= k < |PrunedIndices(frames)|
    ensures var i, kept := PrunedIndices(frames)[k], SelectedIndices(frames);
            && 0 <= i < |frames|
            && (i in kept <==>
                  (SharpHashed(frames) ==>
                     forall j :: j in kept && j < i ==>
                       0 <= j < |frames| && frames[j].hash.Some? && frames[i].hash.Some?
                       && Distance(frames[j].hash.value, frames[i].hash.value) >= 6))
  {
    hide Sharp, PrunedIndices, Prune, Distance, SharpHashed, ThinnedIndices, SelectedIndices, ScoresSound;
    PickPruned(frames);
    HashedAlike(frames);
    ThinnedIff(Prune(frames), k);
    SelectedFromPruned(frames);
    var pruned := PrunedIndices(frames);
    var thinned, kept := ThinnedIndices(Prune(frames)), SelectedIndices(frames);
    forall m | 0 <= m < |pruned| ensures m in thinned <==> pruned[m] in kept {
      SelectedAt(frames, m);
    }
    forall j | j in kept && j < pruned[k] ensures exists m :: 0 <= m < k && m in thinned && pruned[m] == j {
      var m :| 0 <= m < |pruned| && pruned[m] == j;
      assert m < k;
    }
    assert forall m :: m in thinned && m < k ==> 0 <= m;
    assert forall m :: 0 <= m < |pruned| ==> Prune(frames)[m] == frames[pruned[m]];
  }

  /** All sharp frames have hashes exactly when all frames left by pruning do. */
  lemma {:induction false} HashedAlike(frames: seq<WorkFrame>)
    requires ScoresSound(frames)
    ensures SharpHashed(frames) <==> AllHashed(Prune(frames))
  {
    hide Sharp, PrunedIndices, Prune;
    PrunedAreSharp(frames);
    PickPruned(frames);
    var pruned := PrunedIndices(frames);
    if AllHashed(Prune(frames)) {
      forall i | Sharp(frames, i) ensures i < |frames| && frames[i].hash.Some? {
        var k :| 0 <= k < |pruned| && pruned[k] == i;
        assert Prune(frames)[k] == frames[i];
      }
    }
    if SharpHashed(frames) {
      forall k | 0 <= k < |Prune(frames)| ensures Prune(frames)[k].hash.Some? {
        assert pruned[k] in pruned;
      }
    }
  }

  lemma {:induction false} SelectedAt(frames: seq<WorkFrame>, k: int)
    requires Selection(PrunedIndices(frames), |frames|) && 0 <= k < |PrunedIndices(frames)|
    ensures k in ThinnedIndices(Prune(frames)) <==> PrunedIndices(frames)[k] in SelectedIndices(frames)
  {
    hide PrunedIndices, ThinnedIndices, Prune, SelectFrames;
    PickPruned(frames);
    PickThinned(Prune(frames));
    var pruned, thinned, kept := PrunedIndices(frames), ThinnedIndices(Prune(frames)), SelectedIndices(frames);
    assert |kept| == |thinned| && forall m :: 0 <= m < |kept| ==> kept[m] == pruned[thinned[m]];
    if k in thinned {
      var m :| 0 <= m < |thinned| && thinned[m] == k;
      assert kept[m] == pruned[k];
    }
    if pruned[k] in kept {
      var m :| 0 <= m < |kept| && kept[m] == pruned[k];
      assert thinned[m] == k;
    }
  }

  lemma {:induction false} SelectedFromPruned(frames: seq<WorkFrame>)
    ensures forall i :: i in SelectedIndices(frames) ==> i in PrunedIndices(frames)
  {
    hide PrunedIndices, ThinnedIndices, Prune, SelectFrames;
    PickPruned(frames);
    PickThinned(Prune(frames));
    var pruned, thinned, kept := PrunedIndices(frames), ThinnedIndices(Prune(frames)), SelectedIndices(frames);
    assert forall m :: 0 <= m < |kept| ==> kept[m] == pruned[thinned[m]];
  }

  lemma {:induction false} ThinnedIff(frames: seq<WorkFrame>, k: int)
    requires 0 <= k < |frames|
    ensures forall j :: j in ThinnedIndices(frames) ==> 0 <= j
    ensures k in ThinnedIndices(frames) <==>
              (AllHashed(frames) ==>
                 forall j :: j in ThinnedIndices(frames) && j < k ==>
                   0 <= j && Distance(frames[j].hash.value, frames[k].hash.value) >= 6)
  {
    hide Kept, Distance;
    if AllHashed(frames) {
      var far := HashFar(HashesOf(frames), DEDUP_HAMMING);
      KeptShape(|frames|, far);
      KeptCanonicalBelow(|frames|, far, k);
    } else {
      IndicesMembers(|frames|);
    }
  }

  // ----- By embedding ------------------------------------------------------------------------

  /** A configured threshold above 0 and at most 1 is used, and otherwise 0.92. */
  lemma {:induction false} ThresholdIs(configured: Option<real>)
    ensures configured.Some? && 0.0 < configured.value <= 1.0 ==> ThresholdOf(configured) == configured.value
    ensures configured == None || configured.value <= 0.0 || configured.value > 1.0 ==> ThresholdOf(configured) == 0.92
  {
  }

  /** With one vector a frame, a frame is kept exactly when it is below the threshold against every earlier kept one. */
  lemma {:induction false} DedupedExactly<T>(frames: seq<T>, vectors: seq<seq<real>>, t: real)
    requires |vectors| == |frames| >= 2
    ensures var far := VectorFar(vectors, t);
            exists kept :: IsPick(DedupeFrames(frames, Some(vectors), t), frames, kept)
                           && Canonical(|frames|, far, iset i | i in kept)
  {
    hide Kept, SimilarityBelow, Canonical;
    var far := VectorFar(vectors, t);
    KeptShape(|vectors|, far);
    GreedyIsCanonical(|vectors|, far, iset{});
    assert IsPick(DedupeFrames(frames, Some(vectors), t), frames, SemanticDedupe(vectors, t));
  }
}
