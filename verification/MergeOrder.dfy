/** The order of the merged list: lookups without a product stand in the order of their barcodes. */
module MergeOrder {
  import opened Text
  import opened Sorting
  import opened Enrich
  import opened Merge

  /** Where a code first stands in a list. */
  function First(s: seq<string>, c: string): (i: nat)
    ensures i <= |s|
    ensures i < |s| ==> s[i] == c
    ensures forall k :: 0 <= k < i ==> s[k] != c
  {
    if s == [] || s[0] == c then 0 else 1 + First(s[1..], c)
  }

  /** The codes stand in the order in which the list first has them. */
  ghost predicate InOrder(codes: seq<string>, s: seq<string>) {
    forall i, j :: 0 <= i < j < |codes| ==> First(s, codes[i]) < First(s, codes[j])
  }

  lemma {:induction false} FirstIs(s: seq<string>, c: string, i: nat)
    requires i < |s| && s[i] == c && forall k :: 0 <= k < i ==> s[k] != c
    ensures First(s, c) == i
  {
    var k := First(s, c);
    assert k >= i;
  }

  lemma {:induction false} FirstStays(a: seq<string>, b: seq<string>, c: string)
    requires c in a
    ensures First(a + b, c) == First(a, c) < |a|
  {
    var i := First(a, c);
    assert i < |a|;
    assert forall k :: 0 <= k <= i ==> (a + b)[k] == a[k];
    FirstIs(a + b, c, i);
  }

  lemma {:induction false} DistinctInOrder(codes: seq<string>)
    ensures InOrder(Distinct(codes), codes)
  {
    if codes != [] {
      var n := |codes| - 1;
      var before, all := Distinct(codes[..n]), Distinct(codes);
      assert codes == codes[..n] + [codes[n]];
      DistinctInOrder(codes[..n]);
      DistinctShape(codes[..n]);
      forall i, j | 0 <= i < j < |all| ensures First(codes, all[i]) < First(codes, all[j]) {
        assert all[i] == before[i] && before[i] in before;
        FirstStays(codes[..n], [codes[n]], all[i]);
        if j < |before| {
          assert before[j] in before;
          FirstStays(codes[..n], [codes[n]], all[j]);
        } else {
          assert codes[n] !in codes[..n];
          assert forall k :: 0 <= k < n ==> codes[..n][k] == codes[k];
          FirstIs(codes, codes[n], n);
        }
      }
    }
  }

  lemma {:induction false} StandaloneInOrder(codes: seq<string>, vision: seq<Detected>, lookup: Lookup, s: seq<string>)
    requires InOrder(codes, s)
    ensures InOrder(StandaloneCodes(codes, vision, lookup), s)
  {
    hide First, VisionCodes;
    if codes != [] {
      var rest := StandaloneCodes(codes[1..], vision, lookup);
      StandaloneInOrder(codes[1..], vision, lookup, s);
      StandaloneResolved(codes[1..], vision, lookup);
      forall j | 0 <= j < |rest| ensures First(s, codes[0]) < First(s, rest[j]) {
        assert rest[j] in codes[1..];
      }
    }
  }

  /** The lookups on their own come in the order in which the seeds first name their codes. */
  lemma {:induction false} AloneInOrder(seeds: seq<string>, vision: seq<Detected>, lookup: Lookup)
    ensures InOrder(StandaloneCodes(AllCodes(seeds, vision), vision, lookup), seeds)
  {
    hide First, Distinct, VisionCodes, StandaloneCodes;
    var d, v := Distinct(seeds), VisionCodes(vision);
    var alone := StandaloneCodes(AllCodes(seeds, vision), vision, lookup);
    DistinctInOrder(d + v);
    StandaloneInOrder(AllCodes(seeds, vision), vision, lookup, d + v);
    LookupEntersOnce(seeds, vision, lookup);
    DistinctShape(seeds);
    DistinctInOrder(seeds);
    forall i, j | 0 <= i < j < |alone| ensures First(seeds, alone[i]) < First(seeds, alone[j]) {
      assert alone[i] in alone && alone[j] in alone;
      FirstStays(d, v, alone[i]);
      FirstStays(d, v, alone[j]);
    }
  }
}
