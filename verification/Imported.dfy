/** What an import leaves of its rows: every created row can be read back from the tables, field by field. */
module Imported {
  import opened Text
  import opened ImportRows
  import opened Slugs
  import opened Importer

  function ProductSlugs(db: Db): set<string> {
    set p | p in db.products :: p.slug
  }

  function BrandNames(db: Db): set<string> {
    set b | b in db.brands :: b.name
  }

  function BrandSlugs(db: Db): set<string> {
    set b | b in db.brands :: b.slug
  }

  function Skus(db: Db): set<Option<string>> {
    set v | v in db.variants && v.sku.Some? :: v.sku
  }

  /** The row names a brand that is not there, and another brand has its slug. */
  predicate BrandTaken(db: Db, row: ImportRow) {
    row.brand.Some? && row.brand.value != "" && row.brand.value !in BrandNames(db)
    && ImportSlug(row.brand.value) in BrandSlugs(db)
  }

  lemma {:induction false} SlugExistsIff(db: Db, slug: string)
    ensures SlugExists(db, slug) <==> slug in ProductSlugs(db)
  {
    assert forall i :: 0 <= i < |db.products| ==> db.products[i] in db.products;
  }

  lemma {:induction false} BrandConflictIff(db: Db, row: ImportRow)
    ensures BrandConflict(db, row) <==> BrandTaken(db, row)
  {
    hide ImportSlug;
    assert forall j :: 0 <= j < |db.brands| ==> db.brands[j] in db.brands;
    if row.brand.Some? {
      FindBrandNamed(db.brands, row.brand.value);
    }
  }

  lemma {:induction false} SkuConflictIff(db: Db, row: ImportRow)
    ensures SkuConflict(db, row) <==> row.sku in Skus(db)
  {
    assert forall i :: 0 <= i < |db.variants| ==> db.variants[i] in db.variants;
  }

  /**
   A row is skipped exactly when its slug is there, and otherwise fails exactly when its SKU
   or the slug of a missing brand is taken; only a created row changes the tables.
   */
  lemma {:induction false} OutcomeIff(db: Db, row: ImportRow)
    ensures var (after, outcome) := ImportOne(db, row);
            && (outcome == Skipped <==> ImportSlug(row.title) in ProductSlugs(db))
            && (outcome == Failed <==> ImportSlug(row.title) !in ProductSlugs(db)
                                       && (BrandTaken(db, row) || row.sku in Skus(db)))
            && (outcome != Created ==> after == db)
  {
    hide ImportSlug, SlugExists, BrandConflict, SkuConflict, ProductSlugs, BrandTaken, Skus;
    SlugExistsIff(db, ImportSlug(row.title));
    BrandConflictIff(db, row);
    SkuConflictIff(db, row);
  }

  /** The brand with the id has the name. */
  predicate BrandNamed(brands: seq<Brand>, id: nat, name: string) {
    exists j | 0 <= j < |brands| :: brands[j].id == id && brands[j].name == name
  }

  lemma {:induction false} FindBrandNamed(brands: seq<Brand>, name: string)
    ensures match FindBrand(brands, name)
            case Some(id) => BrandNamed(brands, id, name)
            case None => forall j :: 0 <= j < |brands| ==> brands[j].name != name
  {
    if brands != [] {
      FindBrandNamed(brands[1..], name);
      if FindBrand(brands[1..], name).Some? && BrandNamed(brands[1..], FindBrand(brands[1..], name).value, name) {
        var j :| 0 <= j < |brands| - 1 && brands[1..][j].name == name
                 && brands[1..][j].id == FindBrand(brands[1..], name).value;
        assert brands[j + 1] == brands[1..][j];
      }
      if brands[0].name == name {
        assert brands[0].id == FindBrand(brands, name).value;
      }
      assert forall j :: 1 <= j < |brands| ==> brands[j] == brands[1..][j - 1];
    }
  }

  /** The product's brand is the one the row names, or none. */
  predicate BrandReads(db: Db, p: Product, row: ImportRow) {
    if row.brand.Some? && row.brand.value != "" then
      p.brandId.Some? && BrandNamed(db.brands, p.brandId.value, row.brand.value)
    else p.brandId == None
  }

  /** The product, its only variant and its brand say what the row says. */
  ghost predicate ReadsAs(db: Db, p: Product, row: ImportRow) {
    && p in db.products
    && p.title == row.title && p.slug == ImportSlug(row.title) && p.status == DRAFT
    && p.description == row.description && BrandReads(db, p, row)
    && var vs := VariantsOf(db.variants, p.id);
       |vs| == 1 && vs[0].title == "Default" && vs[0].sku == row.sku && vs[0].priceCents == row.priceCents
  }

  /** Finding or creating the row's brand. */
  lemma {:induction false} BrandFound(db: Db, row: ImportRow)
    ensures var (branded, brandId) := WithBrand(db, row);
            && branded.products == db.products && branded.variants == db.variants && db.nextId <= branded.nextId
            && db.brands <= branded.brands
            && (if NamesBrand(row) then brandId.Some? && BrandNamed(branded.brands, brandId.value, row.brand.value)
                else brandId == None && branded == db)
            && (forall j :: |db.brands| <= j < |branded.brands| ==>
                  NamesBrand(row) && branded.brands[j].name == row.brand.value
                  && branded.brands[j].slug == ImportSlug(row.brand.value))
            && (NamesBrand(row) && BrandIn(db.brands, row.brand.value) ==> branded.brands == db.brands)
  {
    hide ImportSlug;
    if NamesBrand(row) {
      FindBrandNamed(db.brands, row.brand.value);
      var (branded, brandId) := WithBrand(db, row);
      assert FindBrand(db.brands, row.brand.value) == None ==> branded.brands[|db.brands|].name == row.brand.value;
    }
  }

  predicate BrandIn(brands: seq<Brand>, name: string) {
    exists j :: 0 <= j < |brands| && brands[j].name == name
  }

  lemma {:induction false} CreatedReads(db: Db, row: ImportRow)
    requires Consistent(db) && ImportOne(db, row).1 == Created
    ensures var after := ImportOne(db, row).0;
            |after.products| == |db.products| + 1 && ReadsAs(after, after.products[|db.products|], row)
            && after.products[|db.products|].id < after.nextId
  {
    hide ImportOne, ImportSlug, WithBrand, BrandNamed, VariantsOf;
    var (branded, brandId) := WithBrand(db, row);
    ImportOneIs(db, row);
    BrandFound(db, row);
    var after, n := ImportOne(db, row).0, |db.products|;
    var v := Variant(branded.nextId + 1, branded.nextId, "Default", row.sku, row.priceCents);
    OnlyVariant(db.variants, v);
    assert after.variants == db.variants + [v];
    assert after.products[n] in after.products;
  }

  lemma {:induction false} OnlyVariant(variants: seq<Variant>, v: Variant)
    requires forall i :: 0 <= i < |variants| ==> variants[i].productId != v.productId
    ensures VariantsOf(variants + [v], v.productId) == [v]
  {
    NoVariants(variants, v.productId);
    assert (variants + [v])[..|variants|] == variants;
  }

  lemma {:induction false} BrandStays(a: seq<Brand>, b: seq<Brand>, id: nat, name: string)
    requires a <= b && BrandNamed(a, id, name)
    ensures BrandNamed(b, id, name)
  {
    var j :| 0 <= j < |a| && a[j].id == id && a[j].name == name;
    assert b[j] == a[j];
  }

  lemma {:induction false} ReadsStay(db: Db, rows: seq<ImportRow>, p: Product, row: ImportRow)
    requires Consistent(db) && ReadsAs(db, p, row) && p.id < db.nextId
    ensures ReadsAs(ImportAll(db, rows).0, p, row)
  {
    hide ImportAll, ImportSlug, Consistent, BrandNamed;
    ImportExtends(db, rows);
    ImportAllKeepsVariants(db, rows, p.id);
    if NamesBrand(row) {
      BrandStays(db.brands, ImportAll(db, rows).0.brands, p.brandId.value, row.brand.value);
    }
  }

  /** Every row that an import created is read back as it was from the tables the whole import leaves. */
  lemma {:induction false} ImportedIsRead(db: Db, rows: seq<ImportRow>, k: nat)
    requires Consistent(db) && k < |rows| && ImportAll(db, rows).1[k] == Created
    ensures exists p :: ReadsAs(ImportAll(db, rows).0, p, rows[k])
    decreases |rows|
  {
    hide ImportOne, Consistent, ReadsAs;
    var (next, outcome) := ImportOne(db, rows[0]);
    ImportOneConsistent(db, rows[0]);
    if k == 0 {
      CreatedReads(db, rows[0]);
      ReadsStay(next, rows[1..], next.products[|db.products|], rows[0]);
    } else {
      ImportedIsRead(next, rows[1..], k - 1);
    }
  }

  /** New brands carry a name from the rows and its slug, and no name that was there gets a second brand. */
  lemma {:induction false} BrandsFromRows(db: Db, rows: seq<ImportRow>, j: nat)
    requires |db.brands| <= j < |ImportAll(db, rows).0.brands|
    ensures var b := ImportAll(db, rows).0.brands[j];
            && !BrandIn(db.brands, b.name) && b.slug == ImportSlug(b.name)
            && exists row :: row in rows && row.brand == Some(b.name)
    decreases |rows|
  {
    hide ImportOne, ImportSlug, BrandIn;
    if rows != [] {
      var next := ImportOne(db, rows[0]).0;
      RowBrands(db, rows[0]);
      assert rows[0] in rows && forall row :: row in rows[1..] ==> row in rows;
      BrandsGrow(next, rows[1..]);
      if j >= |next.brands| {
        BrandsFromRows(next, rows[1..], j);
        BrandsLater(db.brands, next.brands);
      }
    }
  }

  lemma {:induction false} RowBrands(db: Db, row: ImportRow)
    ensures var after := ImportOne(db, row).0;
            && db.brands <= after.brands
            && forall j :: |db.brands| <= j < |after.brands| ==>
                 !BrandIn(db.brands, after.brands[j].name) && after.brands[j].slug == ImportSlug(after.brands[j].name)
                 && row.brand == Some(after.brands[j].name)
  {
    hide ImportSlug, SlugExists, BrandConflict, SkuConflict, WithBrand, BrandIn, BrandNamed;
    BrandFound(db, row);
  }

  lemma {:induction false} BrandsLater(a: seq<Brand>, b: seq<Brand>)
    requires a <= b
    ensures forall name :: BrandIn(a, name) ==> BrandIn(b, name)
  {
    assert forall j :: 0 <= j < |a| ==> a[j] == b[j];
  }

  lemma {:induction false} BrandsGrow(db: Db, rows: seq<ImportRow>)
    ensures db.brands <= ImportAll(db, rows).0.brands
    decreases |rows|
  {
    hide ImportOne, ImportSlug, BrandIn;
    if rows != [] {
      RowBrands(db, rows[0]);
      BrandsGrow(ImportOne(db, rows[0]).0, rows[1..]);
    }
  }

  /** The summary counts the outcomes and names the rows that failed. */
  lemma {:induction false} TallyCounts(rows: seq<ImportRow>, outcomes: seq<Outcome>)
    requires |rows| == |outcomes|
    ensures var s := Tally(rows, outcomes);
            && s.created == multiset(outcomes)[Created] && s.skipped == multiset(outcomes)[Skipped]
            && |s.errors| == multiset(outcomes)[Failed]
            && forall k :: 0 <= k < |rows| && outcomes[k] == Failed ==> rows[k].title in s.errors
  {
    if rows != [] {
      var n := |rows| - 1;
      TallyCounts(rows[..n], outcomes[..n]);
      assert outcomes == outcomes[..n] + [outcomes[n]];
      assert multiset(outcomes) == multiset(outcomes[..n]) + multiset{outcomes[n]};
      assert forall k :: 0 <= k < n ==> rows[k] == rows[..n][k] && outcomes[k] == outcomes[..n][k];
    }
  }
}
