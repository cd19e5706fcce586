/**
 The merge of vision products with barcode lookups: every distinct barcode is looked
 up once, a resolved lookup replaces the product that carried the barcode, and
 lookups without a product enter on their own.
 */
module Merge {
  import opened Text
  import opened Sorting
  import opened Enrich

  /** What the lookup service answers for a code; None when it is unknown. */
  type Lookup = string -> Option<Detected>

  /** The elements of a list without repetitions, in order of first occurrence. */
  function Distinct(codes: seq<string>): seq<string> {
    if codes == [] then []
    else
      var n := |codes| - 1;
      var before := Distinct(codes[..n]);
      if codes[n] in before then before else before + [codes[n]]
  }

  function VisionCodes(vision: seq<Detected>): seq<string> {
    if vision == [] then []
    else (if vision[0].barcode.Some? then [vision[0].barcode.value] else []) + VisionCodes(vision[1..])
  }

  /** Seed barcodes first, then the ones the vision products carry. */
  function AllCodes(seeds: seq<string>, vision: seq<Detected>): seq<string> {
    Distinct(Distinct(seeds) + VisionCodes(vision))
  }

  function Correct(p: Detected, lookup: Lookup): Detected {
    if p.barcode.Some? && lookup(p.barcode.value).Some? then lookup(p.barcode.value).value else p
  }

  function Corrected(vision: seq<Detected>, lookup: Lookup): seq<Detected> {
    seq(|vision|, i requires 0 <= i < |vision| => Correct(vision[i], lookup))
  }

  /** The resolved codes that no vision product carries. */
  function StandaloneCodes(codes: seq<string>, vision: seq<Detected>, lookup: Lookup): seq<string> {
    if codes == [] then []
    else (if lookup(codes[0]).Some? && codes[0] !in VisionCodes(vision) then [codes[0]] else [])
         + StandaloneCodes(codes[1..], vision, lookup)
  }

  function Standalone(codes: seq<string>, lookup: Lookup): seq<Detected>
    requires forall i :: 0 <= i < |codes| ==> lookup(codes[i]).Some?
  {
    seq(|codes|, i requires 0 <= i < |codes| => lookup(codes[i]).value)
  }

  lemma {:induction false} StandaloneResolved(codes: seq<string>, vision: seq<Detected>, lookup: Lookup)
    ensures forall c :: c in StandaloneCodes(codes, vision, lookup)
                   <==> c in codes && lookup(c).Some? && c !in VisionCodes(vision)
    ensures forall i :: 0 <= i < |StandaloneCodes(codes, vision, lookup)| ==>
              lookup(StandaloneCodes(codes, vision, lookup)[i]).Some?
  {
    if codes != [] {
      StandaloneResolved(codes[1..], vision, lookup);
    }
  }

  /** Standalone lookups, then the vision products with resolved ones replaced. */
  function RealProducts(seeds: seq<string>, vision: seq<Detected>, lookup: Lookup): seq<Detected> {
    var codes := StandaloneCodes(AllCodes(seeds, vision), vision, lookup);
    StandaloneResolved(AllCodes(seeds, vision), vision, lookup);
    Standalone(codes, lookup) + Corrected(vision, lookup)
  }

  ghost predicate IsTable(table: map<string, Detected>, codes: seq<string>, lookup: Lookup) {
    && (forall c :: c in table <==> c in codes && lookup(c).Some?)
    && (forall c :: c in table ==> table[c] == lookup(c).value)
  }

  /** Look every code up once. */
  method FillTable(codes: seq<string>, lookup: Lookup) returns (table: map<string, Detected>)
    ensures IsTable(table, codes, lookup)
  {
    table := map[];
    for k := 0 to |codes|
      invariant IsTable(table, codes[..k], lookup)
    {
      var looked := lookup(codes[k]);
      assert codes[..k + 1] == codes[..k] + [codes[k]];
      if looked.Some? {
        table := table[codes[k] := looked.value];
      }
    }
    assert codes[..|codes|] == codes;
  }

  /** The lookups whose code no vision product carries. */
  method TakeStandalone(codes: seq<string>, vision: seq<Detected>, lookup: Lookup, table: map<string, Detected>)
    returns (standalone: seq<Detected>)
    requires IsTable(table, codes, lookup)
    ensures forall i :: 0 <= i < |StandaloneCodes(codes, vision, lookup)| ==>
              lookup(StandaloneCodes(codes, vision, lookup)[i]).Some?
    ensures standalone == Standalone(StandaloneCodes(codes, vision, lookup), lookup)
  {
    hide VisionCodes;
    var matched := set c | c in VisionCodes(vision);
    standalone := [];
    for k := 0 to |codes|
      invariant forall i :: 0 <= i < |StandaloneCodes(codes[..k], vision, lookup)| ==>
                  lookup(StandaloneCodes(codes[..k], vision, lookup)[i]).Some?
      invariant standalone == Standalone(StandaloneCodes(codes[..k], vision, lookup), lookup)
    {
      assert codes[..k + 1] == codes[..k] + [codes[k]];
      StandaloneSnoc(codes[..k], codes[k], vision, lookup);
      if codes[k] in table && codes[k] !in matched {
        standalone := standalone + [table[codes[k]]];
      }
    }
    assert codes[..|codes|] == codes;
  }

  method MergeProducts(seeds: seq<string>, vision: seq<Detected>, lookup: Lookup) returns (products: seq<Detected>)
    ensures products == RealProducts(seeds, vision, lookup)
  {
    var codes := AllCodes(seeds, vision);
    var table := FillTable(codes, lookup);
    var corrected := seq(|vision|, i requires 0 <= i < |vision| =>
      if vision[i].barcode.Some? && vision[i].barcode.value in table
      then table[vision[i].barcode.value] else vision[i]);
    forall i | 0 <= i < |vision| ensures corrected[i] == Correct(vision[i], lookup) {
      if vision[i].barcode.Some? { CodeKnown(seeds, vision, i); }
    }
    hide AllCodes, StandaloneCodes;
    var standalone := TakeStandalone(codes, vision, lookup, table);
    products := standalone + corrected;
  }

  lemma {:induction false} StandaloneSnoc(codes: seq<string>, code: string, vision: seq<Detected>, lookup: Lookup)
    ensures StandaloneCodes(codes + [code], vision, lookup)
         == StandaloneCodes(codes, vision, lookup)
            + if lookup(code).Some? && code !in VisionCodes(vision) then [code] else []
  {
    hide VisionCodes;
    if codes == [] {
      assert codes + [code] == [code];
    } else {
      assert (codes + [code])[1..] == codes[1..] + [code];
      StandaloneSnoc(codes[1..], code, vision, lookup);
    }
  }

  ghost predicate NoRepeats(codes: seq<string>) {
    forall i, j :: 0 <= i < j < |codes| ==> codes[i] != codes[j]
  }

  lemma {:induction false} DistinctShape(codes: seq<string>)
    ensures forall c :: c in Distinct(codes) <==> c in codes
    ensures NoRepeats(Distinct(codes))
  {
    if codes != [] {
      var n := |codes| - 1;
      DistinctShape(codes[..n]);
      assert codes == codes[..n] + [codes[n]];
    }
  }

  lemma {:induction false} VisionCode(vision: seq<Detected>, c: string)
    ensures c in VisionCodes(vision) <==> exists i :: 0 <= i < |vision| && vision[i].barcode == Some(c)
  {
    if vision != [] {
      VisionCode(vision[1..], c);
      if exists i :: 0 <= i < |vision| && vision[i].barcode == Some(c) {
        var i :| 0 <= i < |vision| && vision[i].barcode == Some(c);
        assert i > 0 ==> vision[1..][i - 1] == vision[i];
      }
    }
  }

  lemma {:induction false} CodeKnown(seeds: seq<string>, vision: seq<Detected>, i: nat)
    requires i < |vision| && vision[i].barcode.Some?
    ensures vision[i].barcode.value in AllCodes(seeds, vision)
  {
    VisionCode(vision, vision[i].barcode.value);
    DistinctShape(Distinct(seeds) + VisionCodes(vision));
  }

  lemma {:induction false} CodesExact(seeds: seq<string>, vision: seq<Detected>, c: string)
    ensures c in AllCodes(seeds, vision)
       <==> c in seeds || exists i :: 0 <= i < |vision| && vision[i].barcode == Some(c)
  {
    DistinctShape(seeds);
    VisionCode(vision, c);
    DistinctShape(Distinct(seeds) + VisionCodes(vision));
  }

  lemma {:induction false} StandaloneDistinct(codes: seq<string>, vision: seq<Detected>, lookup: Lookup)
    requires NoRepeats(codes)
    ensures NoRepeats(StandaloneCodes(codes, vision, lookup))
  {
    if codes != [] {
      hide VisionCodes;
      var rest := StandaloneCodes(codes[1..], vision, lookup);
      StandaloneDistinct(codes[1..], vision, lookup);
      StandaloneResolved(codes[1..], vision, lookup);
      assert codes[0] !in codes[1..];
      assert forall j :: 0 <= j < |rest| ==> rest[j] in rest;
      NoRepeatsCons(codes[0], rest);
    }
  }

  lemma {:induction false} NoRepeatsCons(c: string, s: seq<string>)
    requires NoRepeats(s) && forall j :: 0 <= j < |s| ==> s[j] != c
    ensures NoRepeats([c] + s) && NoRepeats([] + s)
  {
    assert [] + s == s;
  }

  /**
   Every resolved barcode enters the merged list exactly one way: replacing each vision
   product that carries it, or once on its own when none does.
   */
  lemma {:induction false} LookupEntersOnce(seeds: seq<string>, vision: seq<Detected>, lookup: Lookup)
    ensures var alone := StandaloneCodes(AllCodes(seeds, vision), vision, lookup);
            && NoRepeats(alone)
            && (forall c :: c in alone <==> c in seeds && lookup(c).Some?
                                            && forall i :: 0 <= i < |vision| ==> vision[i].barcode != Some(c))
    ensures var out := RealProducts(seeds, vision, lookup);
            var alone := StandaloneCodes(AllCodes(seeds, vision), vision, lookup);
            && |out| == |alone| + |vision|
            && (forall k :: 0 <= k < |alone| ==> lookup(alone[k]) == Some(out[k]))
            && (forall i :: 0 <= i < |vision| ==> out[|alone| + i] == Correct(vision[i], lookup))
  {
    var codes := AllCodes(seeds, vision);
    DistinctShape(Distinct(seeds) + VisionCodes(vision));
    StandaloneDistinct(codes, vision, lookup);
    StandaloneResolved(codes, vision, lookup);
    forall c ensures c in StandaloneCodes(codes, vision, lookup)
                <==> c in seeds && lookup(c).Some? && forall i :: 0 <= i < |vision| ==> vision[i].barcode != Some(c)
    {
      CodesExact(seeds, vision, c);
      VisionCode(vision, c);
    }
  }

  lemma {:induction false} CorrectResolved(p: Detected, lookup: Lookup, c: string)
    requires p.barcode == Some(c) && lookup(c).Some?
    ensures Correct(p, lookup) == lookup(c).value
  {
  }

  /**
   A resolved barcode survives the merge: the lookup is in the merged list, and its
   title key is in the enriched result with at least the lookup's confidence.
   */
  lemma {:induction false} LookupSurvives(seeds: seq<string>, vision: seq<Detected>, lookup: Lookup, c: string)
    requires lookup(c).Some? && c in AllCodes(seeds, vision)
    ensures lookup(c).value in RealProducts(seeds, vision, lookup)
    ensures Titled(lookup(c).value) ==>
              exists p :: p in EnrichProducts(RealProducts(seeds, vision, lookup))
                          && Key(p.title) == Key(lookup(c).value.title)
                          && p.confidence >= lookup(c).value.confidence
  {
    hide Key, Titled, EnrichProducts;
    var out := RealProducts(seeds, vision, lookup);
    var alone := StandaloneCodes(AllCodes(seeds, vision), vision, lookup);
    LookupEntersOnce(seeds, vision, lookup);
    CodesExact(seeds, vision, c);
    hide AllCodes, StandaloneCodes, RealProducts, Correct;
    var at: nat;
    if i :| 0 <= i < |vision| && vision[i].barcode == Some(c) {
      at := |alone| + i;
      CorrectResolved(vision[i], lookup, c);
    } else {
      assert c in alone;
      at :| 0 <= at < |alone| && alone[at] == c;
    }
    assert out[at] == lookup(c).value;
    if Titled(out[at]) {
      var p := SurvivorOf(out, at);
    }
  }

  /** Vision products count only when the model really answered; the mock list is the last resort. */
  method ChooseProducts(seeds: seq<string>, analysed: seq<Detected>, live: bool, lookup: Lookup)
    returns (products: seq<Detected>, haveReal: bool)
    ensures var vision := if live then analysed else [];
            && haveReal == (RealProducts(seeds, vision, lookup) != [])
            && products == if haveReal then EnrichProducts(RealProducts(seeds, vision, lookup)) else analysed
  {
    var vision := if live then analysed else [];
    var merged := MergeProducts(seeds, vision, lookup);
    haveReal := |merged| > 0;
    products := if haveReal then EnrichProducts(merged) else analysed;
  }

  /** The mock list is used exactly when the model saw nothing and no seed barcode resolved. */
  lemma {:induction false} MockOnlyWhenNothing(seeds: seq<string>, vision: seq<Detected>, lookup: Lookup)
    ensures RealProducts(seeds, vision, lookup) == [] <==> vision == [] && forall c :: c in seeds ==> lookup(c) == None
  {
    var alone := StandaloneCodes(AllCodes(seeds, vision), vision, lookup);
    LookupEntersOnce(seeds, vision, lookup);
    hide AllCodes, StandaloneCodes, RealProducts;
    if vision == [] {
      assert forall c :: c in seeds && lookup(c).Some? ==> c in alone;
    }
    if |alone| > 0 {
      assert alone[0] in alone;
    }
  }
}
