/**
 Slugs and SKUs: the shared normaliser, the unique-suffix search, the SKU builder and
 the importer's truncating slug. Text is taken after NFKD decomposition.
 */
module Slugs {
  import opened Text

  /** The characters a normalised segment keeps; SKUs use upper case, slugs lower case. */
  predicate Keep(upper: bool, c: char) {
    IsDigit(c) || if upper then 'A' <= c <= 'Z' else 'a' <= c <= 'z'
  }

  /** Each maximal run of other characters becomes one hyphen. */
  function Collapse(upper: bool, s: string): string
    decreases |s|, 1
  {
    if s == "" then ""
    else if Keep(upper, s[0]) then [s[0]] + Collapse(upper, s[1..])
    else "-" + AfterRun(upper, s[1..])
  }

  function AfterRun(upper: bool, s: string): string
    decreases |s|, 2
  {
    if s != "" && !Keep(upper, s[0]) then AfterRun(upper, s[1..]) else Collapse(upper, s)
  }

  function StripLeft(s: string): string {
    if s != "" && s[0] == '-' then StripLeft(s[1..]) else s
  }

  function StripRight(s: string): string {
    if s != "" && s[|s| - 1] == '-' then StripRight(s[..|s| - 1]) else s
  }

  function Hyphenate(upper: bool, s: string): string {
    StripRight(StripLeft(Collapse(upper, s)))
  }

  function Slugify(s: string): string {
    Hyphenate(false, Lower(s))
  }

  // ----- Shape -----------------------------------------------------------------

  /** Kept characters, with single hyphens between them. */
  predicate Hyphenated(upper: bool, s: string) {
    && (forall i :: 0 <= i < |s| ==> Keep(upper, s[i]) || s[i] == '-')
    && (forall i :: 0 <= i < |s| - 1 && s[i] == '-' ==> s[i + 1] != '-')
  }

  /** Empty, or runs of kept characters separated by single hyphens. */
  predicate Segments(upper: bool, s: string) {
    Hyphenated(upper, s) && (s != "" ==> s[0] != '-' && s[|s| - 1] != '-')
  }

  lemma {:induction false} CollapseShape(upper: bool, s: string)
    ensures Hyphenated(upper, Collapse(upper, s))
    decreases |s|, 1
  {
    if s != "" {
      if Keep(upper, s[0]) {
        CollapseShape(upper, s[1..]);
      } else {
        AfterRunShape(upper, s[1..]);
      }
    }
  }

  lemma {:induction false} AfterRunShape(upper: bool, s: string)
    ensures Hyphenated(upper, AfterRun(upper, s))
    ensures AfterRun(upper, s) != "" ==> AfterRun(upper, s)[0] != '-'
    decreases |s|, 2
  {
    if s != "" && !Keep(upper, s[0]) {
      AfterRunShape(upper, s[1..]);
    } else {
      CollapseShape(upper, s);
    }
  }

  lemma {:induction false} StripLeftShape(upper: bool, s: string)
    requires Hyphenated(upper, s)
    ensures Hyphenated(upper, StripLeft(s))
    ensures StripLeft(s) != "" ==> StripLeft(s)[0] != '-'
  {
    if s != "" && s[0] == '-' {
      assert forall i :: 0 <= i < |s| - 1 ==> s[1..][i] == s[i + 1];
      StripLeftShape(upper, s[1..]);
    }
  }

  lemma {:induction false} StripRightShape(upper: bool, s: string)
    requires Hyphenated(upper, s)
    ensures Hyphenated(upper, StripRight(s)) && StripRight(s) <= s
    ensures StripRight(s) != "" ==> StripRight(s)[|StripRight(s)| - 1] != '-'
  {
    if s != "" && s[|s| - 1] == '-' {
      StripRightShape(upper, s[..|s| - 1]);
    }
  }

  lemma {:induction false} HyphenateShape(upper: bool, s: string)
    ensures Segments(upper, Hyphenate(upper, s))
  {
    CollapseShape(upper, s);
    StripLeftShape(upper, Collapse(upper, s));
    StripRightShape(upper, StripLeft(Collapse(upper, s)));
  }

  lemma {:induction false} CollapseFixed(upper: bool, s: string)
    requires Hyphenated(upper, s)
    ensures Collapse(upper, s) == s
  {
    if s != "" {
      assert forall i :: 0 <= i < |s| - 1 ==> s[1..][i] == s[i + 1];
      CollapseFixed(upper, s[1..]);
      if s[0] == '-' {
        assert AfterRun(upper, s[1..]) == Collapse(upper, s[1..]);
      }
    }
  }

  // ----- Content ---------------------------------------------------------------

  /** The kept characters of `s`, in order. */
  function Kept(upper: bool, s: string): string {
    if s == "" then "" else (if Keep(upper, s[0]) then [s[0]] else "") + Kept(upper, s[1..])
  }

  lemma {:induction false} CollapseKeeps(upper: bool, s: string)
    ensures Kept(upper, Collapse(upper, s)) == Kept(upper, s)
    decreases |s|, 1
  {
    if s != "" {
      if Keep(upper, s[0]) {
        CollapseKeeps(upper, s[1..]);
        assert ([s[0]] + Collapse(upper, s[1..]))[1..] == Collapse(upper, s[1..]);
      } else {
        AfterRunKeeps(upper, s[1..]);
        assert ("-" + AfterRun(upper, s[1..]))[1..] == AfterRun(upper, s[1..]);
      }
    }
  }

  lemma {:induction false} AfterRunKeeps(upper: bool, s: string)
    ensures Kept(upper, AfterRun(upper, s)) == Kept(upper, s)
    decreases |s|, 2
  {
    if s != "" && !Keep(upper, s[0]) {
      AfterRunKeeps(upper, s[1..]);
    } else {
      CollapseKeeps(upper, s);
    }
  }

  lemma {:induction false} KeptSnoc(upper: bool, s: string, c: char)
    ensures Kept(upper, s + [c]) == Kept(upper, s) + if Keep(upper, c) then [c] else ""
  {
    if s == "" {
      assert s + [c] == [c] && [c][1..] == "";
    } else {
      var first, last := if Keep(upper, s[0]) then [s[0]] else "", if Keep(upper, c) then [c] else "";
      calc {
        Kept(upper, s + [c]);
        { assert (s + [c])[1..] == s[1..] + [c]; }
        first + Kept(upper, s[1..] + [c]);
        { KeptSnoc(upper, s[1..], c); }
        first + (Kept(upper, s[1..]) + last);
        (first + Kept(upper, s[1..])) + last;
      }
    }
  }

  lemma {:induction false} StripKeeps(upper: bool, s: string)
    ensures Kept(upper, StripLeft(s)) == Kept(upper, s) == Kept(upper, StripRight(s))
  {
    if s != "" {
      StripKeeps(upper, s[1..]);
      var n := |s| - 1;
      assert s == s[..n] + [s[n]];
      StripKeeps(upper, s[..n]);
      KeptSnoc(upper, s[..n], s[n]);
    }
  }

  /**
   A slug is empty or hyphen-separated alphanumeric runs, spells exactly the
   alphanumeric characters of the lower-cased text, and is a fixed point of
   slugify; nothing else is.
   */
  lemma {:induction false} SlugifyCanonical(s: string)
    ensures Segments(false, Slugify(s))
    ensures Kept(false, Slugify(s)) == Kept(false, Lower(s))
    ensures Slugify(s) == s <==> Segments(false, s)
    ensures Slugify(Slugify(s)) == Slugify(s)
  {
    var low := Lower(s);
    HyphenateShape(false, low);
    CollapseKeeps(false, low);
    StripKeeps(false, Collapse(false, low));
    StripKeeps(false, StripLeft(Collapse(false, low)));
    SegmentsFixed(Slugify(s));
    if Segments(false, s) {
      SegmentsFixed(s);
    }
  }

  lemma {:induction false} SegmentsFixed(s: string)
    requires Segments(false, s)
    ensures Slugify(s) == s
  {
    assert Lower(s) == s;
    CollapseFixed(false, s);
  }

  // ----- Unique slugs ------------------------------------------------------------

  function Suffixed(base: string, n: nat): string {
    base + "-" + Digits(n)
  }

  lemma {:induction false} SuffixedInjective(base: string, m: nat, n: nat)
    requires Suffixed(base, m) == Suffixed(base, n)
    ensures m == n
  {
    var k := |base| + 1;
    assert Suffixed(base, m)[k..] == Digits(m) && Suffixed(base, n)[k..] == Digits(n);
    DigitsRoundTrip(m);
    DigitsRoundTrip(n);
  }

  /** Suffixes 2 to n - 1 as a set; one entry for each. */
  ghost function Probed(base: string, n: nat): (probes: set<string>)
    ensures n >= 2 ==> forall s :: s in probes <==> exists m :: 2 <= m < n && s == Suffixed(base, m)
  {
    if n <= 2 then {} else Probed(base, n - 1) + {Suffixed(base, n - 1)}
  }

  lemma {:induction false} ProbedSize(base: string, n: nat)
    requires n >= 2
    ensures |Probed(base, n)| == n - 2
  {
    if n > 2 {
      ProbedSize(base, n - 1);
      if Suffixed(base, n - 1) in Probed(base, n - 1) {
        var m :| 2 <= m < n - 1 && Suffixed(base, n - 1) == Suffixed(base, m);
        SuffixedInjective(base, m, n - 1);
      }
    }
  }

  /** While suffixes 2 to n - 1 and the base are all taken, n stays within the taken count. */
  lemma {:induction false} ProbesFit(base: string, n: nat, used: set<string>)
    requires n >= 2 && base in used && forall m :: 2 <= m < n ==> Suffixed(base, m) in used
    ensures n <= |used| + 1
  {
    ProbedSize(base, n);
    assert base !in Probed(base, n) by {
      assert forall m: nat :: |Suffixed(base, m)| > |base|;
    }
    SubsetSize(Probed(base, n) + {base}, used);
  }

  function BaseSlug(input: string): string {
    if Slugify(input) == "" then "item" else Slugify(input)
  }

  lemma {:induction false} BaseSlugShape(input: string)
    ensures Segments(false, BaseSlug(input)) && BaseSlug(input) != ""
  {
    SlugifyCanonical(input);
    hide Slugify;
  }

  /** The free base, or the base with the least free suffix; at most |taken| suffixes are probed. */
  method UniqueSlug(input: string, taken: seq<string>) returns (slug: string)
    ensures slug !in taken
    ensures Segments(false, slug) && slug != ""
    ensures BaseSlug(input) !in taken ==> slug == BaseSlug(input)
    ensures BaseSlug(input) in taken ==>
              exists n: nat :: 2 <= n <= |taken| + 1 && slug == Suffixed(BaseSlug(input), n)
                            && forall m :: 2 <= m < n ==> Suffixed(BaseSlug(input), m) in taken
  {
    hide BaseSlug, Suffixed, Segments;
    var base := BaseSlug(input);
    BaseSlugShape(input);
    var used := set s | s in taken;
    UsedSize(taken);
    if base !in used {
      return base;
    }
    var n := 2;
    while Suffixed(base, n) in used
      invariant 2 <= n <= |used| + 1
      invariant forall m :: 2 <= m < n ==> Suffixed(base, m) in used
      decreases |used| + 1 - n
    {
      ProbesFit(base, n + 1, used);
      n := n + 1;
    }
    slug := Suffixed(base, n);
    SuffixedShape(base, n);
  }

  lemma {:induction false} UsedSize(taken: seq<string>)
    ensures |set s | s in taken| <= |taken|
  {
    if taken != [] {
      UsedSize(taken[1..]);
      assert (set s | s in taken) == (set s | s in taken[1..]) + {taken[0]};
    }
  }

  lemma {:induction false} SuffixedShape(base: string, n: nat)
    requires Segments(false, base) && base != ""
    ensures Segments(false, Suffixed(base, n)) && Suffixed(base, n) != ""
  {
    var s := Suffixed(base, n);
    assert forall i :: 0 <= i < |base| ==> s[i] == base[i];
    assert forall i :: |base| < i < |s| ==> s[i] == Digits(n)[i - |base| - 1];
  }

  // ----- SKUs --------------------------------------------------------------------

  function SkuSegment(s: string): string {
    Hyphenate(true, Upper(s))
  }

  function SkuSegments(parts: seq<string>): seq<string> {
    if parts == [] then []
    else (if SkuSegment(parts[0]) == "" then [] else [SkuSegment(parts[0])]) + SkuSegments(parts[1..])
  }

  function Join(segments: seq<string>): string {
    if segments == [] then ""
    else if |segments| == 1 then segments[0]
    else segments[0] + "-" + Join(segments[1..])
  }

  function Truncate(s: string, maxLength: nat): string {
    if |s| <= maxLength then s else s[..maxLength]
  }

  function SkuFromTitle(title: string, parts: seq<string>, maxLength: nat): string {
    StripRight(Truncate(Join(SkuSegments([title] + parts)), maxLength))
  }

  lemma {:induction false} SkuSegmentsShape(parts: seq<string>)
    ensures forall i :: 0 <= i < |SkuSegments(parts)| ==>
              SkuSegments(parts)[i] != "" && Segments(true, SkuSegments(parts)[i])
  {
    if parts != [] {
      HyphenateShape(true, Upper(parts[0]));
      SkuSegmentsShape(parts[1..]);
    }
  }

  lemma {:induction false} JoinShape(segments: seq<string>)
    requires forall i :: 0 <= i < |segments| ==> segments[i] != "" && Segments(true, segments[i])
    ensures Segments(true, Join(segments)) && (segments != [] ==> Join(segments) != "")
  {
    if |segments| > 1 {
      var a, b := segments[0], Join(segments[1..]);
      JoinShape(segments[1..]);
      var s := Join(segments);
      assert s == a + "-" + b;
      assert forall i :: 0 <= i < |a| ==> s[i] == a[i];
      assert forall i :: |a| < i < |s| ==> s[i] == b[i - |a| - 1];
    }
  }

  /** Truncation can cut after a hyphen; stripping it keeps the segment shape within the limit. */
  lemma {:induction false} SkuShape(title: string, parts: seq<string>, maxLength: nat)
    ensures Segments(true, SkuFromTitle(title, parts, maxLength))
    ensures |SkuFromTitle(title, parts, maxLength)| <= maxLength
    ensures SkuFromTitle(title, parts, maxLength) <= Join(SkuSegments([title] + parts))
  {
    SkuSegmentsShape([title] + parts);
    var joined := Join(SkuSegments([title] + parts));
    JoinShape(SkuSegments([title] + parts));
    StripRightShape(true, Truncate(joined, maxLength));
  }

  // ----- The importer's slug -------------------------------------------------------

  const IMPORT_SLUG_MAX := 80

  function ImportSlug(s: string): string {
    var full := Hyphenate(false, Trim(Lower(s)));
    if full == "" then "item" else Truncate(full, IMPORT_SLUG_MAX)
  }

  /**
   Truncation comes after the hyphens were trimmed, so a cut right after a hyphen
   leaves it in place: exactly then the slug is not a slug of itself.
   */
  lemma {:induction false} ImportSlugStable(s: string)
    ensures ImportSlug(s) != "" && |ImportSlug(s)| <= IMPORT_SLUG_MAX
    ensures Hyphenated(false, ImportSlug(s))
    ensures var full := Hyphenate(false, Trim(Lower(s)));
            ImportSlug(ImportSlug(s)) == ImportSlug(s)
            <==> |full| <= IMPORT_SLUG_MAX || full[IMPORT_SLUG_MAX - 1] != '-'
  {
    HyphenateShape(false, Trim(Lower(s)));
    var slug := ImportSlug(s);
    assert slug[0] != '-';
    ImportSlugAgain(slug);
  }

  /** Such a text loses only its trailing hyphens. */
  lemma {:induction false} HyphenateOfHyphenated(slug: string)
    requires Hyphenated(false, slug) && slug != "" && slug[0] != '-'
    ensures Hyphenate(false, Trim(Lower(slug))) == StripRight(slug)
  {
    assert Lower(slug) == slug;
    assert Trimmed(slug);
    TrimOfTrimmed(slug);
    hide Trim, Lower;
    CollapseFixed(false, slug);
  }

  lemma {:induction false} ImportSlugAgain(slug: string)
    requires Hyphenated(false, slug) && 0 < |slug| <= IMPORT_SLUG_MAX && slug[0] != '-'
    ensures ImportSlug(slug) == slug <==> slug[|slug| - 1] != '-'
  {
    assert Hyphenate(false, Trim(Lower(slug))) == StripRight(slug) by { HyphenateOfHyphenated(slug); }
    StripRightKeepsFirst(slug);
    StripRightShape(false, slug);
    hide Hyphenate, Trim, Lower, Hyphenated;
  }

  lemma {:induction false} StripRightKeepsFirst(s: string)
    requires s != "" && s[0] != '-'
    ensures StripRight(s) != ""
  {
    if s[|s| - 1] == '-' {
      StripRightKeepsFirst(s[..|s| - 1]);
    }
  }

  /** 79 letters, a hyphen and one more letter: the cut leaves the hyphen behind. */
  lemma {:induction false} ImportSlugCut()
    ensures exists s :: ImportSlug(ImportSlug(s)) != ImportSlug(s)
  {
    var s := seq(79, i => 'a') + "-b";
    assert Lower(s) == s;
    TrimOfTrimmed(s);
    CollapseFixed(false, s);
    assert Hyphenate(false, Trim(Lower(s))) == s;
    ImportSlugStable(s);
  }
}
