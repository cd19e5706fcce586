/** What title clean-up and the merge leave of a product: its words, its other fields and its place. */
module Titles {
  import opened Text
  import opened Sorting
  import opened Enrich
  import opened Merge

  // ----- Words ----------------------------------------------------------------------------

  /** The runs of characters that are not white space; `w` is the one being read. */
  function WordsFrom(w: string, s: string): seq<string>
    decreases |s|
  {
    if s == "" then if w == "" then [] else [w]
    else if IsSpace(s[0]) then (if w == "" then [] else [w]) + WordsFrom("", s[1..])
    else WordsFrom(w + [s[0]], s[1..])
  }

  function Words(s: string): seq<string> {
    WordsFrom("", s)
  }

  function Join(words: seq<string>): string {
    if words == [] then ""
    else if |words| == 1 then words[0]
    else words[0] + " " + Join(words[1..])
  }

  lemma {:induction false} SomeWord(w: string, s: string)
    requires w != ""
    ensures WordsFrom(w, s) != []
    decreases |s|
  {
    if s != "" && !IsSpace(s[0]) {
      SomeWord(w + [s[0]], s[1..]);
    }
  }

  lemma {:induction false} JoinCons(w: string, words: seq<string>)
    requires words != []
    ensures Join([w] + words) == w + " " + Join(words)
  {
  }

  lemma {:induction false} SquashJoins(w: string, s: string)
    requires w != "" && EndsInWord(s)
    ensures w + Squash(s) == Join(WordsFrom(w, s))
    decreases |s|, 1
  {
    if s == "" {
      assert w + "" == w;
    } else if IsSpace(s[0]) {
      var rest := s[1..];
      assert EndsInWord(rest) && rest != "";
      AfterSpaceJoins(rest);
      JoinCons(w, WordsFrom("", rest));
      assert w + (" " + AfterSpace(rest)) == w + " " + AfterSpace(rest);
    } else {
      SquashJoins(w + [s[0]], s[1..]);
      assert w + ([s[0]] + Squash(s[1..])) == w + [s[0]] + Squash(s[1..]);
    }
  }

  lemma {:induction false} AfterSpaceJoins(s: string)
    requires EndsInWord(s)
    ensures AfterSpace(s) == Join(WordsFrom("", s))
    ensures s != "" ==> WordsFrom("", s) != []
    decreases |s|, 2
  {
    if s != "" && IsSpace(s[0]) {
      AfterSpaceJoins(s[1..]);
      assert [] + WordsFrom("", s[1..]) == WordsFrom("", s[1..]);
    } else if s != "" {
      assert "" + [s[0]] == [s[0]];
      SquashJoins([s[0]], s[1..]);
      SomeWord([s[0]], s[1..]);
    }
  }

  lemma {:induction false} WordsSkipStart(s: string)
    ensures Words(TrimStart(s)) == Words(s)
  {
    if s != "" && IsSpace(s[0]) {
      WordsSkipStart(s[1..]);
      assert [] + WordsFrom("", s[1..]) == WordsFrom("", s[1..]);
    }
  }

  lemma {:induction false} WordsSpaceEnd(w: string, s: string, c: char)
    requires IsSpace(c)
    ensures WordsFrom(w, s + [c]) == WordsFrom(w, s)
    decreases |s|
  {
    if s == "" {
      assert s + [c] == [c] && [c][1..] == "";
    } else {
      assert (s + [c])[1..] == s[1..] + [c];
      WordsSpaceEnd(if IsSpace(s[0]) then "" else w + [s[0]], s[1..], c);
    }
  }

  lemma {:induction false} WordsSkipEnd(s: string)
    ensures Words(TrimEnd(s)) == Words(s)
  {
    if s != "" && IsSpace(s[|s| - 1]) {
      var n := |s| - 1;
      WordsSkipEnd(s[..n]);
      assert s == s[..n] + [s[n]];
      WordsSpaceEnd("", s[..n], s[n]);
    }
  }

  /** A cleaned title is its words with single blanks between them. */
  lemma {:induction false} NormalIsWords(title: string)
    ensures Normal(title) == Join(Words(title))
  {
    hide Squash, AfterSpace, TrimStart, TrimEnd, WordsFrom;
    var s := Trim(title);
    TrimShape(title);
    WordsSkipStart(title);
    WordsSkipEnd(TrimStart(title));
    AfterSpaceJoins(s);
    SquashIsAfterSpace(s);
  }

  lemma {:induction false} SquashIsAfterSpace(s: string)
    requires s == "" || !IsSpace(s[0])
    ensures AfterSpace(s) == Squash(s)
  {
  }

  // ----- Case -----------------------------------------------------------------------------

  lemma {:induction false} UpperSquash(s: string)
    ensures Squash(Upper(s)) == Upper(Squash(s))
    decreases |s|, 1
  {
    if s != "" {
      UpperTail(s);
      if IsSpace(s[0]) {
        UpperAfterSpace(s[1..]);
      } else {
        UpperSquash(s[1..]);
      }
    }
  }

  lemma {:induction false} UpperAfterSpace(s: string)
    ensures AfterSpace(Upper(s)) == Upper(AfterSpace(s))
    decreases |s|, 2
  {
    if s != "" {
      UpperTail(s);
      if IsSpace(s[0]) {
        UpperAfterSpace(s[1..]);
      } else {
        UpperSquash(s);
      }
    }
  }

  lemma {:induction false} UpperTail(s: string)
    requires s != ""
    ensures Upper(s)[1..] == Upper(s[1..]) && Upper(s)[..|s| - 1] == Upper(s[..|s| - 1])
    ensures IsSpace(Upper(s)[0]) <==> IsSpace(s[0])
    ensures IsSpace(Upper(s)[|s| - 1]) <==> IsSpace(s[|s| - 1])
    ensures Upper(s)[0] == UpperChar(s[0])
  {
  }

  lemma {:induction false} UpperTrimStart(s: string)
    ensures TrimStart(Upper(s)) == Upper(TrimStart(s))
  {
    if s != "" {
      UpperTail(s);
      if IsSpace(s[0]) { UpperTrimStart(s[1..]); }
    }
  }

  lemma {:induction false} UpperTrimEnd(s: string)
    ensures TrimEnd(Upper(s)) == Upper(TrimEnd(s))
  {
    if s != "" {
      UpperTail(s);
      if IsSpace(s[|s| - 1]) { UpperTrimEnd(s[..|s| - 1]); }
    }
  }

  lemma {:induction false} LowerUpper(s: string)
    ensures Lower(Upper(s)) == Lower(s)
  {
    assert forall i :: 0 <= i < |s| ==> LowerChar(UpperChar(s[i])) == LowerChar(s[i]);
  }

  /** Titles that differ in case or spacing only have the same key. */
  lemma {:induction false} KeyIgnoresCase(title: string)
    ensures Key(Upper(title)) == Key(title)
    ensures Key(Normal(title)) == Key(title)
  {
    hide Squash, TrimStart, TrimEnd, Upper, Lower;
    UpperTrimStart(title);
    UpperTrimEnd(TrimStart(title));
    UpperSquash(Trim(title));
    LowerUpper(Normal(title));
    NormalIdempotent(title);
  }

  // ----- Products ---------------------------------------------------------------------------

  /** A product's title key survives exactly when the title holds more than white space. */
  lemma {:induction false} KeptIff(products: seq<Detected>, i: nat)
    requires i < |products|
    ensures (exists p :: p in EnrichProducts(products) && Key(p.title) == Key(products[i].title))
            <==> !AllSpace(products[i].title)
  {
    hide Normal, EnrichProducts, AllSpace, Best;
    NormalIdempotent(products[i].title);
    if Titled(products[i]) {
      var p := SurvivorOf(products, i);
    }
    forall p | p in EnrichProducts(products) ensures Key(p.title) != "" {
      SurvivorTitled(products, p);
    }
  }

  lemma {:induction false} SurvivorTitled(products: seq<Detected>, p: Detected)
    requires p in EnrichProducts(products)
    ensures Key(p.title) != ""
  {
    hide Normal, EnrichProducts, AllSpace;
    SurvivorFrom(products, p);
    var j :| Best(products, j) && p == Clean(products[j]);
    NormalIdempotent(products[j].title);
  }

  /** Cleaning a product touches its title and nothing else. */
  lemma {:induction false} CleanKeeps(p: Detected)
    ensures Clean(p) == Detected(Join(Words(p.title)), p.confidence, p.priceCents, p.brandGuess, p.categoryGuess,
                                 p.barcode, p.imageUrl)
  {
    hide Normal, Words;
    NormalIsWords(p.title);
  }

  /**
   The merged list ends with the vision products in their order, each replaced by what
   its barcode resolves to and otherwise unchanged.
   */
  lemma {:induction false} VisionStays(seeds: seq<string>, vision: seq<Detected>, lookup: Lookup, i: nat)
    requires i < |vision|
    ensures var out := RealProducts(seeds, vision, lookup);
            |out| >= |vision|
            && out[|out| - |vision| + i]
               == match vision[i].barcode
                  case None => vision[i]
                  case Some(code) => if lookup(code).Some? then lookup(code).value else vision[i]
  {
    hide StandaloneCodes, RealProducts, AllCodes;
    LookupEntersOnce(seeds, vision, lookup);
  }
}
