/** Slugs and SKUs as words: the runs of kept characters with single hyphens between them. */
module SlugWords {
  import opened Text
  import opened Slugs

  /** The maximal runs of kept characters; `w` is the one being read. */
  function RunsFrom(upper: bool, w: string, s: string): seq<string>
    decreases |s|
  {
    if s == "" then if w == "" then [] else [w]
    else if Keep(upper, s[0]) then RunsFrom(upper, w + [s[0]], s[1..])
    else (if w == "" then [] else [w]) + RunsFrom(upper, "", s[1..])
  }

  function Runs(upper: bool, s: string): seq<string> {
    RunsFrom(upper, "", s)
  }

  lemma {:induction false} SomeRun(upper: bool, w: string, s: string)
    requires w != ""
    ensures RunsFrom(upper, w, s) != []
    decreases |s|
  {
    if s != "" && Keep(upper, s[0]) {
      SomeRun(upper, w + [s[0]], s[1..]);
    }
  }

  lemma {:induction false} JoinCons(w: string, runs: seq<string>)
    requires runs != []
    ensures Join([w] + runs) == w + ("-" + Join(runs))
  {
    assert ([w] + runs)[1..] == runs;
    assert w + "-" + Join(runs) == w + ("-" + Join(runs));
  }

  lemma {:induction false} JoinOne(w: string)
    ensures Join([w]) == w && Join([]) == ""
  {
  }

  // ----- One hyphen where runs meet -----------------------------------------------------------

  lemma {:induction false} StripRightSnoc(s: string)
    ensures StripRight(s + "-") == StripRight(s)
  {
    assert (s + "-")[..|s|] == s;
  }

  lemma {:induction false} StripRightLater(w: string, s: string)
    requires w != "" && w[|w| - 1] != '-'
    ensures StripRight(w + s) == w + StripRight(s)
    decreases |s|
  {
    if s == "" {
      assert w + s == w;
    } else {
      assert (w + s)[|w + s| - 1] == s[|s| - 1];
      if s[|s| - 1] == '-' {
        assert (w + s)[..|w + s| - 1] == w + s[..|s| - 1];
        StripRightLater(w, s[..|s| - 1]);
      }
    }
  }

  lemma {:induction false} StripRightDash(s: string)
    requires s != "" && s[0] != '-' && StripRight(s) != ""
    ensures StripRight("-" + s) == "-" + StripRight(s)
    decreases |s|
  {
    assert ("-" + s)[|s|] == s[|s| - 1];
    if s[|s| - 1] == '-' {
      assert ("-" + s)[..|s|] == "-" + s[..|s| - 1];
      StripRightDash(s[..|s| - 1]);
    }
  }

  lemma {:induction false} ReadOn(upper: bool, w: string, s: string)
    ensures Collapse(upper, "") == "" && (w != "" ==> RunsFrom(upper, w, "") == [w])
    ensures s != "" && Keep(upper, s[0]) ==>
              && Collapse(upper, s) == [s[0]] + Collapse(upper, s[1..])
              && RunsFrom(upper, w, s) == RunsFrom(upper, w + [s[0]], s[1..])
    ensures s != "" && !Keep(upper, s[0]) && w != "" ==>
              && Collapse(upper, s) == "-" + AfterRun(upper, s[1..])
              && RunsFrom(upper, w, s) == [w] + RunsFrom(upper, "", s[1..])
  {
  }

  lemma {:induction false} StripRightEmpty()
    ensures StripRight("") == "" && StripRight("-") == ""
  {
    assert "-"[..0] == "";
  }

  /** After a run being read, the text up to its trailing hyphens is the runs joined. */
  lemma {:induction false} CollapseJoins(upper: bool, w: string, s: string)
    requires w != "" && w[|w| - 1] != '-'
    ensures w + StripRight(Collapse(upper, s)) == Join(RunsFrom(upper, w, s))
    decreases |s|, 1
  {
    hide Collapse, AfterRun, RunsFrom, StripRight, Join;
    ReadOn(upper, w, s);
    StripRightEmpty();
    JoinOne(w);
    if s == "" {
      assert w + "" == w;
    } else if Keep(upper, s[0]) {
      KeptIsNoHyphen(upper, s[0]);
      var c, rest := [s[0]], Collapse(upper, s[1..]);
      StripRightLater(c, rest);
      CollapseJoins(upper, w + c, s[1..]);
      Assoc(w, c, StripRight(rest));
    } else {
      AfterRunJoins(upper, s[1..]);
      var rest, runs := AfterRun(upper, s[1..]), RunsFrom(upper, "", s[1..]);
      if rest == "" {
        assert "-" + "" == "-" && w + "" == w && [w] + [] == [w];
      } else {
        StripRightDash(rest);
        JoinCons(w, runs);
      }
    }
  }

  lemma {:induction false} KeptIsNoHyphen(upper: bool, c: char)
    requires Keep(upper, c)
    ensures c != '-'
  {
  }

  lemma {:induction false} Assoc(a: string, b: string, c: string)
    ensures (a + b) + c == a + (b + c)
  {
  }

  /** After a gap, what is left is empty or starts with the next run. */
  lemma {:induction false} AfterRunJoins(upper: bool, s: string)
    ensures var rest, runs := AfterRun(upper, s), RunsFrom(upper, "", s);
            && StripRight(rest) == Join(runs)
            && (rest == "" <==> runs == [])
            && (rest != "" ==> rest[0] != '-' && StripRight(rest) != "")
    decreases |s|, 2
  {
    if s != "" && !Keep(upper, s[0]) {
      AfterRunJoins(upper, s[1..]);
      assert [] + RunsFrom(upper, "", s[1..]) == RunsFrom(upper, "", s[1..]);
    } else if s != "" {
      var c := [s[0]];
      assert "" + c == c;
      CollapseJoins(upper, c, s[1..]);
      StripRightLater(c, Collapse(upper, s[1..]));
      SomeRun(upper, c, s[1..]);
    } else {
      JoinOne("");
    }
  }

  lemma {:induction false} StripLeftCollapse(upper: bool, s: string)
    ensures StripLeft(Collapse(upper, s)) == AfterRun(upper, s)
  {
    if s != "" && !Keep(upper, s[0]) {
      AfterRunJoins(upper, s[1..]);
      var rest := AfterRun(upper, s[1..]);
      assert ("-" + rest)[1..] == rest;
    }
  }

  /** Normalising a segment joins its runs with single hyphens. */
  lemma {:induction false} HyphenateIsRuns(upper: bool, s: string)
    ensures Hyphenate(upper, s) == Join(Runs(upper, s))
  {
    hide Collapse, AfterRun, StripLeft, StripRight;
    StripLeftCollapse(upper, s);
    AfterRunJoins(upper, s);
  }

  /** The runs of a slug are of ASCII letters and digits, in lower case, those of a SKU in upper case. */
  lemma {:induction false} KeptIs(c: char)
    ensures Keep(false, c) <==> 'a' <= c <= 'z' || '0' <= c <= '9'
    ensures Keep(true, c) <==> 'A' <= c <= 'Z' || '0' <= c <= '9'
  {
  }

  /** A slug is the runs of letters and digits of the lower-cased text, joined with hyphens. */
  lemma {:induction false} SlugIsRuns(s: string)
    ensures Slugify(s) == Join(Runs(false, Lower(s)))
  {
    HyphenateIsRuns(false, Lower(s));
  }

  // ----- The importer's slug --------------------------------------------------------------------

  lemma {:induction false} RunsSkipStart(upper: bool, s: string)
    ensures Runs(upper, TrimStart(s)) == Runs(upper, s)
  {
    if s != "" && IsSpace(s[0]) {
      RunsSkipStart(upper, s[1..]);
      assert [] + RunsFrom(upper, "", s[1..]) == RunsFrom(upper, "", s[1..]);
    }
  }

  lemma {:induction false} RunsSkipLast(upper: bool, w: string, s: string, c: char)
    requires !Keep(upper, c)
    ensures RunsFrom(upper, w, s + [c]) == RunsFrom(upper, w, s)
    decreases |s|
  {
    if s == "" {
      assert s + [c] == [c] && [c][1..] == "";
    } else {
      assert (s + [c])[1..] == s[1..] + [c];
      RunsSkipLast(upper, if Keep(upper, s[0]) then w + [s[0]] else "", s[1..], c);
    }
  }

  lemma {:induction false} RunsSkipEnd(upper: bool, s: string)
    ensures Runs(upper, TrimEnd(s)) == Runs(upper, s)
  {
    if s != "" && IsSpace(s[|s| - 1]) {
      var n := |s| - 1;
      RunsSkipEnd(upper, s[..n]);
      assert s == s[..n] + [s[n]];
      RunsSkipLast(upper, "", s[..n], s[n]);
    }
  }

  /** The importer's slug is the first 80 characters of the joined runs, or "item" when there are none. */
  lemma {:induction false} ImportSlugIsRuns(s: string)
    ensures var full := Join(Runs(false, Lower(s)));
            ImportSlug(s) == if full == "" then "item" else if |full| <= 80 then full else full[..80]
  {
    hide TrimStart, TrimEnd, RunsFrom, Hyphenate;
    HyphenateIsRuns(false, Trim(Lower(s)));
    RunsSkipStart(false, Lower(s));
    RunsSkipEnd(false, TrimStart(Lower(s)));
  }

  // ----- SKUs -------------------------------------------------------------------------------------

  /** The runs of the upper-cased parts, one part after the other. */
  function AllRuns(parts: seq<string>): seq<string> {
    if parts == [] then [] else Runs(true, Upper(parts[0])) + AllRuns(parts[1..])
  }

  lemma {:induction false} JoinAppend(a: seq<string>, b: seq<string>)
    requires a != [] && b != []
    ensures Join(a + b) == Join(a) + ("-" + Join(b))
  {
    hide Join;
    var head, rest := a[0], a[1..];
    HeadAndRest(a, b);
    if rest == [] {
      JoinOne(head);
      JoinCons(head, b);
    } else {
      JoinAppend(rest, b);
      JoinCons(head, rest + b);
      JoinCons(head, rest);
      Assoc("-", Join(rest), "-" + Join(b));
      Assoc(head, "-" + Join(rest), "-" + Join(b));
    }
  }

  lemma {:induction false} HeadAndRest(a: seq<string>, b: seq<string>)
    requires a != []
    ensures a == [a[0]] + a[1..] && a + b == [a[0]] + (a[1..] + b)
    ensures a[1..] == [] ==> a == [a[0]] && a + b == [a[0]] + b
  {
  }

  lemma {:induction false} RunsNonEmpty(upper: bool, w: string, s: string)
    ensures forall r :: r in RunsFrom(upper, w, s) ==> r != ""
    decreases |s|
  {
    if s != "" {
      RunsNonEmpty(upper, if Keep(upper, s[0]) then w + [s[0]] else "", s[1..]);
    }
  }

  lemma {:induction false} JoinNonEmpty(runs: seq<string>)
    requires forall r :: r in runs ==> r != ""
    ensures Join(runs) == "" <==> runs == []
  {
    if runs != [] {
      assert runs[0] in runs;
    }
  }

  lemma {:induction false} SegmentsAreRuns(parts: seq<string>)
    ensures Join(SkuSegments(parts)) == Join(AllRuns(parts))
    ensures SkuSegments(parts) == [] <==> AllRuns(parts) == []
  {
    hide Join, Hyphenate, RunsFrom;
    if parts != [] {
      var runs, segment := Runs(true, Upper(parts[0])), SkuSegment(parts[0]);
      var more, rest := SkuSegments(parts[1..]), AllRuns(parts[1..]);
      SegmentsAreRuns(parts[1..]);
      HyphenateIsRuns(true, Upper(parts[0]));
      RunsNonEmpty(true, "", Upper(parts[0]));
      JoinNonEmpty(runs);
      JoinOne(segment);
      if segment == "" {
        assert [] + rest == rest && [] + more == more;
      } else if rest == [] {
        assert runs + [] == runs && [segment] + [] == [segment];
      } else {
        JoinAppend(runs, rest);
        JoinCons(segment, more);
      }
    }
  }

  /** The hyphens a text ends in. */
  lemma {:induction false} StripRightDrops(s: string)
    ensures StripRight(s) <= s
    ensures forall i :: |StripRight(s)| <= i < |s| ==> s[i] == '-'
    ensures StripRight(s) == "" || StripRight(s)[|StripRight(s)| - 1] != '-'
  {
    if s != "" && s[|s| - 1] == '-' {
      StripRightDrops(s[..|s| - 1]);
    }
  }

  /** A SKU is all runs of title and parts joined, cut at the limit and then freed of a hyphen at the cut. */
  lemma {:induction false} SkuIsRuns(title: string, parts: seq<string>, maxLength: nat)
    ensures var full, sku := Join(AllRuns([title] + parts)), SkuFromTitle(title, parts, maxLength);
            && sku <= full && |sku| <= maxLength
            && (forall i :: |sku| <= i < |full| && i < maxLength ==> full[i] == '-')
            && (sku != "" ==> sku[|sku| - 1] != '-')
  {
    hide Join, AllRuns, SkuSegments, StripRight;
    SegmentsAreRuns([title] + parts);
    StripRightDrops(Truncate(Join(SkuSegments([title] + parts)), maxLength));
  }

  // ----- Suffixes ---------------------------------------------------------------------------------

  predicate Numeral(s: string, n: nat) {
    (forall i :: 0 <= i < |s| ==> IsDigit(s[i])) && DigitsValue(s) == n
  }

  /** A suffixed slug is the base, a hyphen and the number. */
  lemma {:induction false} SuffixReads(base: string, n: nat)
    ensures var slug := Suffixed(base, n);
            |slug| > |base| && slug[..|base|] == base && slug[|base|] == '-' && Numeral(slug[|base| + 1..], n)
  {
    assert Suffixed(base, n)[|base| + 1..] == Digits(n);
    DigitsRoundTrip(n);
  }

  /** A text without letters and digits has the slug "item". */
  lemma {:induction false} BaseIsRuns(s: string)
    ensures BaseSlug(s) == if Join(Runs(false, Lower(s))) == "" then "item" else Join(Runs(false, Lower(s)))
  {
    SlugIsRuns(s);
  }
}
