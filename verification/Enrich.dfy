/**
 Enrichment of detected products and the merge with barcode lookups: whitespace
 normalisation, one survivor per title, best first, and lookups that override guesses.
 */
module Enrich {
  import opened Text
  import opened Sorting

  datatype Detected = Detected(title: string, confidence: real, priceCents: Option<int>, brandGuess: Option<string>,
                               categoryGuess: Option<string>, barcode: Option<string>, imageUrl: Option<string>)

  // ----- Titles ------------------------------------------------------------------------

  /** Each run of white space becomes one blank. */
  function Squash(s: string): string
    decreases |s|, 1
  {
    if s == "" then ""
    else if IsSpace(s[0]) then " " + AfterSpace(s[1..])
    else [s[0]] + Squash(s[1..])
  }

  function AfterSpace(s: string): string
    decreases |s|, 2
  {
    if s != "" && IsSpace(s[0]) then AfterSpace(s[1..]) else Squash(s)
  }

  function Normal(title: string): string {
    Squash(Trim(title))
  }

  function Key(title: string): string {
    Lower(Normal(title))
  }

  /** Words separated by single blanks, up to what comes first and last. */
  predicate Spaced(s: string) {
    forall i :: 0 <= i < |s| && IsSpace(s[i]) ==> s[i] == ' ' && (i + 1 < |s| ==> !IsSpace(s[i + 1]))
  }

  predicate EndsInWord(s: string) {
    s != "" ==> !IsSpace(s[|s| - 1])
  }

  lemma {:induction false} PutBefore(c: char, t: string)
    requires Spaced(t)
    requires if c == ' ' then t == "" || !IsSpace(t[0]) else !IsSpace(c)
    ensures Spaced([c] + t)
    ensures (if t == "" then !IsSpace(c) else EndsInWord(t)) ==> EndsInWord([c] + t)
  {
  }

  lemma {:induction false} SquashShape(s: string)
    ensures Spaced(Squash(s))
    ensures s != "" <==> Squash(s) != ""
    ensures s != "" && !IsSpace(s[0]) ==> Squash(s)[0] == s[0]
    ensures EndsInWord(s) ==> EndsInWord(Squash(s))
    decreases |s|, 1
  {
    if s != "" {
      assert EndsInWord(s) ==> EndsInWord(s[1..]);
      assert EndsInWord(s) && IsSpace(s[0]) ==> s[1..] != "";
      if IsSpace(s[0]) {
        AfterSpaceShape(s[1..]);
        PutBefore(' ', AfterSpace(s[1..]));
      } else {
        SquashShape(s[1..]);
        PutBefore(s[0], Squash(s[1..]));
      }
      hide IsSpace, Spaced, EndsInWord, AfterSpace;
    }
  }

  lemma {:induction false} AfterSpaceShape(s: string)
    ensures Spaced(AfterSpace(s))
    ensures AfterSpace(s) != "" ==> !IsSpace(AfterSpace(s)[0])
    ensures EndsInWord(s) ==> EndsInWord(AfterSpace(s)) && (s != "" ==> AfterSpace(s) != "")
    decreases |s|, 2
  {
    if s != "" && IsSpace(s[0]) {
      AfterSpaceShape(s[1..]);
    } else {
      SquashShape(s);
    }
  }

  lemma {:induction false} SquashFixed(s: string)
    requires Spaced(s)
    ensures Squash(s) == s
  {
    if s != "" {
      assert forall i :: 0 <= i < |s| - 1 ==> s[1..][i] == s[i + 1];
      SquashFixed(s[1..]);
    }
  }

  /** Normalising is idempotent, and empties exactly the blank titles. */
  lemma {:induction false} NormalIdempotent(title: string)
    ensures Normal(Normal(title)) == Normal(title)
    ensures Normal(title) == "" <==> AllSpace(title)
  {
    TrimShape(title);
    SquashShape(Trim(title));
    TrimOfTrimmed(Normal(title));
    SquashFixed(Normal(title));
  }

  // ----- One survivor per title -----------------------------------------------------------

  /** An insertion-ordered map from title keys to products. */
  type Entries = seq<(string, Detected)>

  function Find(entries: Entries, key: string): (i: nat)
    ensures i <= |entries|
    ensures i < |entries| ==> entries[i].0 == key
    ensures forall k :: 0 <= k < i ==> entries[k].0 != key
  {
    if entries == [] || entries[0].0 == key then 0 else 1 + Find(entries[1..], key)
  }

  function Clean(p: Detected): Detected {
    p.(title := Normal(p.title))
  }

  predicate Titled(p: Detected) {
    Normal(p.title) != ""
  }

  /** Keep the first of the most confident; a replacement stays in the first one's place. */
  function Put(entries: Entries, p: Detected): Entries {
    var key := Key(p.title);
    var i := Find(entries, key);
    if i == |entries| then entries + [(key, Clean(p))]
    else if p.confidence > entries[i].1.confidence then entries[i := (key, Clean(p))]
    else entries
  }

  /** Products without a title are left out. */
  function Entered(entries: Entries, p: Detected): Entries {
    if Titled(p) then Put(entries, p) else entries
  }

  function Collect(products: seq<Detected>): Entries {
    if products == [] then []
    else
      var n := |products| - 1;
      Entered(Collect(products[..n]), products[n])
  }

  function Values(entries: Entries): seq<Detected> {
    seq(|entries|, i requires 0 <= i < |entries| => entries[i].1)
  }

  function Confidence(): Detected -> real {
    (p: Detected) => p.confidence
  }

  function EnrichProducts(products: seq<Detected>): seq<Detected> {
    Sort(Confidence(), Values(Collect(products)))
  }

  method ComputeEnrichProducts(products: seq<Detected>) returns (enriched: seq<Detected>)
    ensures enriched == EnrichProducts(products)
  {
    hide Normal, Lower;
    var byTitle: Entries := [];
    for n := 0 to |products|
      invariant byTitle == Collect(products[..n])
    {
      assert products[..n + 1][..n] == products[..n];
      var p := products[n];
      if !Titled(p) {
        continue;
      }
      var key := Key(p.title);
      var i := Find(byTitle, key);
      if i == |byTitle| {
        byTitle := byTitle + [(key, Clean(p))];
      } else if p.confidence > byTitle[i].1.confidence {
        byTitle := byTitle[i := (key, Clean(p))];
      }
    }
    assert products[..|products|] == products;
    enriched := Sort(Confidence(), Values(byTitle));
  }

  /** Product i is the earliest of the most confident products with its title key. */
  ghost predicate Best(products: seq<Detected>, i: int) {
    0 <= i < |products| && Titled(products[i])
    && forall j :: 0 <= j < |products| && Titled(products[j]) && Key(products[j].title) == Key(products[i].title) ==>
         products[j].confidence <= products[i].confidence
         && (j < i ==> products[j].confidence < products[i].confidence)
  }

  ghost predicate Survivor(products: seq<Detected>, e: (string, Detected)) {
    exists i :: Best(products, i) && e == (Key(products[i].title), Clean(products[i]))
  }

  ghost predicate DistinctKeys(entries: Entries) {
    forall i, j :: 0 <= i < j < |entries| ==> entries[i].0 != entries[j].0
  }

  ghost predicate HasKey(entries: Entries, key: string) {
    exists i :: 0 <= i < |entries| && entries[i].0 == key
  }

  ghost predicate Sound(products: seq<Detected>, entries: Entries) {
    forall k :: 0 <= k < |entries| ==> Survivor(products, entries[k])
  }

  ghost predicate Covers(products: seq<Detected>, entries: Entries) {
    forall i :: 0 <= i < |products| && Titled(products[i]) ==> HasKey(entries, Key(products[i].title))
  }

  lemma {:induction false} PutKeys(entries: Entries, p: Detected, key: string)
    ensures DistinctKeys(entries) ==> DistinctKeys(Put(entries, p))
    ensures HasKey(entries, key) || key == Key(p.title) ==> HasKey(Put(entries, p), key)
  {
    hide Normal, Lower, Key, Clean;
    var after := Put(entries, p);
    var at := Find(entries, Key(p.title));
    assert after[at].0 == Key(p.title);
    if HasKey(entries, key) {
      var k :| 0 <= k < |entries| && entries[k].0 == key;
      assert after[k].0 == key;
    }
  }

  lemma {:induction false} AddCovers(before: seq<Detected>, entries: Entries, p: Detected)
    requires Covers(before, entries)
    ensures Covers(before + [p], Entered(entries, p))
  {
    hide Titled, Key, Put, HasKey;
    var after := Entered(entries, p);
    forall i | 0 <= i <= |before| && Titled((before + [p])[i]) ensures HasKey(after, Key((before + [p])[i].title)) {
      PutKeys(entries, p, Key((before + [p])[i].title));
    }
  }

  lemma {:induction false} AddSound(before: seq<Detected>, entries: Entries, p: Detected)
    requires DistinctKeys(entries) && Sound(before, entries) && Covers(before, entries)
    ensures Sound(before + [p], Entered(entries, p))
  {
    hide Normal, Lower, Key;
    var products, after := before + [p], Entered(entries, p);
    forall k | 0 <= k < |after| ensures Survivor(products, after[k]) {
      if k < |entries| && after[k] == entries[k] {
        var i :| Best(before, i) && entries[k] == (Key(before[i].title), Clean(before[i]));
        KeptBest(before, entries, p, i, k);
        assert products[i] == before[i];
      } else {
        NewBest(before, entries, p);
        hide Best;
        assert products[|before|] == p && after[k] == (Key(p.title), Clean(p));
      }
    }
  }

  /** The collected entries: one best product for every key that occurs, and nothing else. */
  lemma {:induction false} CollectShape(products: seq<Detected>)
    ensures DistinctKeys(Collect(products))
    ensures Sound(products, Collect(products))
    ensures Covers(products, Collect(products))
  {
    if products != [] {
      var n := |products| - 1;
      var entries, p := Collect(products[..n]), products[n];
      CollectShape(products[..n]);
      PutKeys(entries, p, "");
      AddSound(products[..n], entries, p);
      AddCovers(products[..n], entries, p);
      assert products[..n] + [p] == products;
      hide Put, Sound, Covers, HasKey, Titled;
    }
  }

  lemma {:induction false} CleanConfidence(p: Detected)
    ensures Clean(p).confidence == p.confidence
  {
  }

  /** An entry that a new product does not replace stays the best of its key. */
  lemma {:induction false} KeptBest(before: seq<Detected>, entries: Entries, p: Detected, i: nat, k: nat)
    requires Best(before, i) && DistinctKeys(entries)
    requires k < |entries| && entries[k] == (Key(before[i].title), Clean(before[i]))
    requires k < |Entered(entries, p)| && Entered(entries, p)[k] == entries[k]
    ensures Best(before + [p], i)
  {
    hide Normal, Lower, Key, Clean, Put;
    CleanConfidence(before[i]);
    if Titled(p) && Key(p.title) == Key(before[i].title) {
      NotBeaten(entries, p, k);
    }
  }

  lemma {:induction false} NotBeaten(entries: Entries, p: Detected, k: nat)
    requires DistinctKeys(entries) && k < |entries| && entries[k].0 == Key(p.title)
    requires k < |Put(entries, p)| && Put(entries, p)[k] == entries[k]
    ensures p.confidence <= entries[k].1.confidence
  {
    hide Key, Clean;
    CleanConfidence(p);
    assert Find(entries, Key(p.title)) == k;
  }

  /** A product that is entered anew or over an older one is the best of its key. */
  lemma {:induction false} NewBest(before: seq<Detected>, entries: Entries, p: Detected)
    requires Titled(p) && Covers(before, entries)
    requires var at := Find(entries, Key(p.title));
             at < |entries| ==> Survivor(before, entries[at]) && p.confidence > entries[at].1.confidence
    ensures Best(before + [p], |before|)
  {
    hide Normal, Lower, Key, Put;
    var at := Find(entries, Key(p.title));
    forall j | 0 <= j < |before| && Titled(before[j]) && Key(before[j].title) == Key(p.title)
      ensures before[j].confidence < p.confidence
    {
      assert HasKey(entries, Key(before[j].title));
    }
  }

  lemma {:induction false} ValuesMember(entries: Entries, p: Detected)
    ensures p in Values(entries) <==> exists k :: 0 <= k < |entries| && entries[k].1 == p
  {
    if exists k :: 0 <= k < |entries| && entries[k].1 == p {
      var k :| 0 <= k < |entries| && entries[k].1 == p;
      assert Values(entries)[k] == p;
    }
  }

  /** Every collected entry is filed under its own product's key. */
  lemma {:induction false} EntryKeys(products: seq<Detected>, k: nat)
    requires k < |Collect(products)|
    ensures Collect(products)[k].0 == Key(Collect(products)[k].1.title)
    ensures Titled(Collect(products)[k].1) && Clean(Collect(products)[k].1) == Collect(products)[k].1
  {
    CollectShape(products);
    assert Survivor(products, Collect(products)[k]);
    var i :| Best(products, i) && Collect(products)[k] == (Key(products[i].title), Clean(products[i]));
    NormalIdempotent(products[i].title);
  }

  /** Where a title key first occurs, or the number of products when it does not. */
  function FirstTitled(products: seq<Detected>, key: string): (i: nat)
    ensures i <= |products|
    ensures i < |products| ==> Titled(products[i]) && Key(products[i].title) == key
    ensures forall k :: 0 <= k < i && Titled(products[k]) ==> Key(products[k].title) != key
  {
    if products == [] then 0
    else
      var n := |products| - 1;
      var i := FirstTitled(products[..n], key);
      if i < n || (Titled(products[n]) && Key(products[n].title) == key) then i else n + 1
  }

  /** The entries are listed in the order in which their keys first occur. */
  ghost predicate InOrder(products: seq<Detected>, entries: Entries) {
    && (forall k :: 0 <= k < |entries| ==> FirstTitled(products, entries[k].0) < |products|)
    && (forall j, k :: 0 <= j < k < |entries| ==>
          FirstTitled(products, entries[j].0) < FirstTitled(products, entries[k].0))
  }

  lemma {:induction false} CollectOrder(products: seq<Detected>)
    ensures InOrder(products, Collect(products))
  {
    if products != [] {
      var n := |products| - 1;
      var before, p := Collect(products[..n]), products[n];
      CollectOrder(products[..n]);
      OrderKept(products, before);
      CollectShape(products[..n]);
      if Titled(p) {
        PutListsKeys(before, p);
        if |Put(before, p)| > |before| { KeyIsNew(products, before); }
        hide InOrder, Key, Titled, FirstTitled, Find, Put, Covers, HasKey;
        AddInOrder(products, before, Put(before, p), Key(p.title));
      }
    }
  }

  lemma {:induction false} OrderKept(products: seq<Detected>, entries: Entries)
    requires products != [] && InOrder(products[..|products| - 1], entries)
    ensures InOrder(products, entries)
    ensures forall k :: 0 <= k < |entries| ==> FirstTitled(products, entries[k].0) < |products| - 1
  {
    assert forall k :: 0 <= k < |entries| ==>
             FirstTitled(products, entries[k].0) == FirstTitled(products[..|products| - 1], entries[k].0);
    hide FirstTitled;
  }

  /** The later entries keep the keys of the earlier ones, with at most the given key added at the end. */
  ghost predicate AddsKey(entries: Entries, after: Entries, key: string) {
    && |entries| <= |after| <= |entries| + 1
    && forall k :: 0 <= k < |after| ==> after[k].0 == if k < |entries| then entries[k].0 else key
  }

  lemma {:induction false} PutListsKeys(entries: Entries, p: Detected)
    ensures AddsKey(entries, Put(entries, p), Key(p.title))
    ensures |Put(entries, p)| > |entries| ==> !HasKey(entries, Key(p.title))
  {
    hide Key, Clean;
  }

  lemma {:induction false} AddInOrder(products: seq<Detected>, entries: Entries, after: Entries, key: string)
    requires products != [] && InOrder(products, entries) && AddsKey(entries, after, key)
    requires forall k :: 0 <= k < |entries| ==> FirstTitled(products, entries[k].0) < |products| - 1
    requires |after| > |entries| ==> FirstTitled(products, key) == |products| - 1
    ensures InOrder(products, after)
  {
    hide FirstTitled;
  }

  /** A key without an entry so far first occurs in the last product. */
  lemma {:induction false} KeyIsNew(products: seq<Detected>, before: Entries)
    requires products != [] && Covers(products[..|products| - 1], before)
    requires Titled(products[|products| - 1]) && !HasKey(before, Key(products[|products| - 1].title))
    ensures FirstTitled(products, Key(products[|products| - 1].title)) == |products| - 1
  {
    var n := |products| - 1;
    var i := FirstTitled(products[..n], Key(products[n].title));
    hide Key, Titled, HasKey;
  }

  /** One product's key occurs earlier than the other's. */
  function Earlier(products: seq<Detected>): (Detected, Detected) -> bool {
    (p: Detected, q: Detected) => FirstTitled(products, Key(p.title)) < FirstTitled(products, Key(q.title))
  }

  /** Equally confident products stand in the order in which their keys first occur. */
  ghost predicate TiesByFirst(products: seq<Detected>, out: seq<Detected>) {
    forall i, j :: 0 <= i < j < |out| && out[i].confidence == out[j].confidence ==>
      FirstTitled(products, Key(out[i].title)) < FirstTitled(products, Key(out[j].title))
  }

  lemma {:induction false} EnrichTies(products: seq<Detected>)
    ensures TiesByFirst(products, EnrichProducts(products))
  {
    var entries := Collect(products);
    var values := Values(entries);
    CollectOrder(products);
    forall i, j | 0 <= i < j < |values| ensures Earlier(products)(values[i], values[j]) {
      EntryKeys(products, i);
      EntryKeys(products, j);
    }
    SortKeepsOrder(Confidence(), Earlier(products), values);
    assert TiesOrdered(Confidence(), Earlier(products), EnrichProducts(products));
    hide FirstTitled, Key, Collect, Sort;
  }

  lemma {:induction false} SurvivorFrom(products: seq<Detected>, p: Detected)
    requires p in EnrichProducts(products)
    ensures exists i :: Best(products, i) && p == Clean(products[i])
  {
    var entries := Collect(products);
    SortMembers(Confidence(), Values(entries), p);
    ValuesMember(entries, p);
    var k :| 0 <= k < |entries| && entries[k].1 == p;
    CollectShape(products);
    assert Survivor(products, entries[k]);
  }

  /** The survivor with a given product's key; the product itself when it is the best. */
  lemma {:induction false} SurvivorOf(products: seq<Detected>, i: nat) returns (p: Detected)
    requires i < |products| && Titled(products[i])
    ensures p in EnrichProducts(products) && Key(p.title) == Key(products[i].title)
    ensures p.confidence >= products[i].confidence
    ensures Best(products, i) ==> p == Clean(products[i])
  {
    var entries := Collect(products);
    CollectShape(products);
    assert HasKey(entries, Key(products[i].title));
    var k :| 0 <= k < |entries| && entries[k].0 == Key(products[i].title);
    p := entries[k].1;
    ValuesMember(entries, p);
    SortMembers(Confidence(), Values(entries), p);
    EntryKeys(products, k);
    hide Normal, Lower, Key;
    assert Survivor(products, entries[k]);
    var b :| Best(products, b) && entries[k] == (Key(products[b].title), Clean(products[b]));
    assert Best(products, i) ==> b == i;
  }

  lemma {:induction false} EnrichDistinct(products: seq<Detected>)
    ensures var out := EnrichProducts(products);
            forall i, j :: 0 <= i < j < |out| ==> Key(out[i].title) != Key(out[j].title)
  {
    var entries := Collect(products);
    var values, out := Values(entries), EnrichProducts(products);
    CollectShape(products);
    forall i, j | 0 <= i < |values| && 0 <= j < |values| && Key(values[i].title) == Key(values[j].title)
      ensures i == j
    {
      EntryKeys(products, i);
      EntryKeys(products, j);
    }
    hide Key;
    SortDistinct(Confidence(), values);
    SortCorrect(Confidence(), values);
    forall i, j | 0 <= i < j < |out| ensures Key(out[i].title) != Key(out[j].title) {
      assert out[i] in out && out[j] in out;
      SortMembers(Confidence(), values, out[i]);
      SortMembers(Confidence(), values, out[j]);
      var a :| 0 <= a < |values| && values[a] == out[i];
      var b :| 0 <= b < |values| && values[b] == out[j];
    }
  }

  lemma {:induction false} EnrichSorted(products: seq<Detected>)
    ensures Sorted(Confidence(), EnrichProducts(products))
  {
    SortCorrect(Confidence(), Values(Collect(products)));
  }

  lemma {:induction false} EnrichComesFrom(products: seq<Detected>)
    ensures forall p :: p in EnrichProducts(products) ==> exists i :: Best(products, i) && p == Clean(products[i])
  {
    hide EnrichProducts, Clean, Titled, Key;
    forall p | p in EnrichProducts(products) ensures exists i :: Best(products, i) && p == Clean(products[i]) {
      SurvivorFrom(products, p);
    }
  }

  lemma {:induction false} EnrichKeepsBest(products: seq<Detected>)
    ensures forall i :: Best(products, i) ==> Clean(products[i]) in EnrichProducts(products)
  {
    hide EnrichProducts, Clean, Key, Normal;
    forall i | Best(products, i) ensures Clean(products[i]) in EnrichProducts(products) {
      var p := SurvivorOf(products, i);
    }
  }

  lemma {:induction false} EnrichCovers(products: seq<Detected>)
    ensures var out := EnrichProducts(products);
            forall i :: 0 <= i < |products| && Titled(products[i]) ==>
              exists p :: p in out && Key(p.title) == Key(products[i].title) && p.confidence >= products[i].confidence
  {
    hide EnrichProducts, Best, Key, Titled;
    forall i | 0 <= i < |products| && Titled(products[i])
      ensures exists p :: p in EnrichProducts(products) && Key(p.title) == Key(products[i].title)
                          && p.confidence >= products[i].confidence
    {
      var p := SurvivorOf(products, i);
    }
  }

  /**
   The survivors of a file: exactly one product for each title key that occurs, the
   earliest of the most confident with its title normalised, sorted best first, with
   ties in the order in which their keys first appeared.
   */
  lemma {:induction false} EnrichCanonical(products: seq<Detected>)
    ensures var out := EnrichProducts(products);
            && Sorted(Confidence(), out)
            && (forall p :: p in out ==> exists i :: Best(products, i) && p == Clean(products[i]))
            && (forall i :: Best(products, i) ==> Clean(products[i]) in out)
            && (forall i, j :: 0 <= i < j < |out| ==> Key(out[i].title) != Key(out[j].title))
            && (forall i :: 0 <= i < |products| && Titled(products[i]) ==>
                  exists p :: p in out && Key(p.title) == Key(products[i].title)
                              && p.confidence >= products[i].confidence)
            && TiesByFirst(products, out)
  {
    hide *;
    EnrichSorted(products);
    EnrichComesFrom(products);
    EnrichKeepsBest(products);
    EnrichDistinct(products);
    EnrichCovers(products);
    EnrichTies(products);
  }

  lemma {:induction false} PutNew(entries: Entries, p: Detected)
    requires !HasKey(entries, Key(p.title))
    ensures Put(entries, p) == entries + [(Key(p.title), Clean(p))]
  {
    hide Key, Clean;
  }

  ghost predicate KeysApart(products: seq<Detected>) {
    forall i, j :: 0 <= i < j < |products| ==> Key(products[i].title) != Key(products[j].title)
  }

  lemma {:induction false} KeysApartLast(products: seq<Detected>, entries: Entries)
    requires products != [] && KeysApart(products) && |entries| == |products| - 1
    requires forall k :: 0 <= k < |entries| ==> entries[k].0 == Key(products[k].title)
    ensures !HasKey(entries, Key(products[|products| - 1].title))
  {
    hide Key;
  }

  lemma {:induction false} KeysApartPrefix(products: seq<Detected>, n: nat)
    requires KeysApart(products) && n <= |products|
    ensures KeysApart(products[..n])
  {
    hide Key;
  }

  /** Products that are clean, titled and of different keys are collected as they are. */
  lemma {:induction false} CollectFixed(products: seq<Detected>)
    requires forall i :: 0 <= i < |products| ==> Titled(products[i]) && Clean(products[i]) == products[i]
    requires KeysApart(products)
    ensures |Collect(products)| == |products|
    ensures forall i :: 0 <= i < |products| ==> Collect(products)[i] == (Key(products[i].title), products[i])
  {
    if products != [] {
      var n := |products| - 1;
      var entries, p := Collect(products[..n]), products[n];
      assert Titled(p) && Collect(products) == Put(entries, p);
      hide Key, Titled, Collect, Clean, Put, KeysApart, HasKey;
      KeysApartPrefix(products, n);
      CollectFixed(products[..n]);
      assert forall k :: 0 <= k < n ==> entries[k] == (Key(products[k].title), products[k]);
      KeysApartLast(products, entries);
      PutNew(entries, p);
    }
  }

  /** Enriching twice is enriching once. */
  lemma {:induction false} EnrichIdempotent(products: seq<Detected>)
    ensures EnrichProducts(EnrichProducts(products)) == EnrichProducts(products)
  {
    var out := EnrichProducts(products);
    EnrichDistinct(products);
    SortCorrect(Confidence(), Values(Collect(products)));
    forall i | 0 <= i < |out| ensures Titled(out[i]) && Clean(out[i]) == out[i] {
      assert out[i] in out;
      SurvivorFrom(products, out[i]);
      var b :| Best(products, b) && out[i] == Clean(products[b]);
      NormalIdempotent(products[b].title);
    }
    CollectFixed(out);
    assert Values(Collect(out)) == out;
    SortFixed(Confidence(), out);
  }
}
