/**
 The product importer: one transaction per row over the brand, product and variant
 tables, with rollback on a uniqueness conflict. The main result is that importing
 rows that were processed before changes nothing.
 */
module Importer {
  import opened Text
  import opened ImportRows
  import opened Slugs

  datatype Status = DRAFT | PENDING_REVIEW | ACTIVE | ARCHIVED

  datatype Brand = Brand(id: nat, name: string, slug: string)
  datatype Product = Product(id: nat, title: string, slug: string, status: Status,
                             description: Option<string>, brandId: Option<nat>)
  datatype Variant = Variant(id: nat, productId: nat, title: string, sku: Option<string>, priceCents: int)

  /** One tenant's catalogue; `nextId` is the identifier generator. */
  datatype Db = Db(brands: seq<Brand>, products: seq<Product>, variants: seq<Variant>, nextId: nat)

  datatype Outcome = Created | Skipped | Failed

  predicate SlugExists(db: Db, slug: string) {
    exists i :: 0 <= i < |db.products| && db.products[i].slug == slug
  }

  predicate BrandSlugExists(db: Db, slug: string) {
    exists i :: 0 <= i < |db.brands| && db.brands[i].slug == slug
  }

  predicate SkuExists(db: Db, sku: string) {
    exists i :: 0 <= i < |db.variants| && db.variants[i].sku == Some(sku)
  }

  function FindBrand(brands: seq<Brand>, name: string): Option<nat> {
    if brands == [] then None
    else if brands[0].name == name then Some(brands[0].id)
    else FindBrand(brands[1..], name)
  }

  predicate NamesBrand(row: ImportRow) {
    row.brand.Some? && row.brand.value != ""
  }

  /** The brand has to be created, but its slug belongs to a brand of another name. */
  predicate BrandConflict(db: Db, row: ImportRow) {
    NamesBrand(row) && FindBrand(db.brands, row.brand.value) == None
    && BrandSlugExists(db, ImportSlug(row.brand.value))
  }

  predicate SkuConflict(db: Db, row: ImportRow) {
    row.sku.Some? && SkuExists(db, row.sku.value)
  }

  /** The database after the row's brand was found or created, and the brand's id. */
  function WithBrand(db: Db, row: ImportRow): (Db, Option<nat>) {
    if !NamesBrand(row) then (db, None)
    else match FindBrand(db.brands, row.brand.value)
      case Some(id) => (db, Some(id))
      case None =>
        (db.(brands := db.brands + [Brand(db.nextId, row.brand.value, ImportSlug(row.brand.value))],
             nextId := db.nextId + 1),
         Some(db.nextId))
  }

  function WithProduct(db: Db, row: ImportRow, brandId: Option<nat>): Db {
    db.(products := db.products
          + [Product(db.nextId, row.title, ImportSlug(row.title), DRAFT, row.description, brandId)],
        variants := db.variants
          + [Variant(db.nextId + 1, db.nextId, "Default", row.sku, row.priceCents)],
        nextId := db.nextId + 2)
  }

  function ImportOne(db: Db, row: ImportRow): (Db, Outcome) {
    if SlugExists(db, ImportSlug(row.title)) then (db, Skipped)
    else if BrandConflict(db, row) || SkuConflict(db, row) then (db, Failed)
    else
      var (withBrand, brandId) := WithBrand(db, row);
      (WithProduct(withBrand, row, brandId), Created)
  }

  function ImportAll(db: Db, rows: seq<ImportRow>): (r: (Db, seq<Outcome>))
    ensures |r.1| == |rows|
    decreases |rows|
  {
    if rows == [] then (db, [])
    else
      var (next, outcome) := ImportOne(db, rows[0]);
      var (last, outcomes) := ImportAll(next, rows[1..]);
      (last, [outcome] + outcomes)
  }

  // ----- The service -------------------------------------------------------------

  datatype Summary = Summary(created: nat, skipped: nat, errors: seq<string>)

  function Tally(rows: seq<ImportRow>, outcomes: seq<Outcome>): Summary
    requires |rows| == |outcomes|
  {
    if rows == [] then Summary(0, 0, [])
    else
      var n := |rows| - 1;
      var s := Tally(rows[..n], outcomes[..n]);
      match outcomes[n]
      case Created => s.(created := s.created + 1)
      case Skipped => s.(skipped := s.skipped + 1)
      case Failed => s.(errors := s.errors + [rows[n].title])
  }

  lemma {:induction false} ImportAllSnoc(db: Db, rows: seq<ImportRow>, row: ImportRow)
    ensures var (before, outcomes) := ImportAll(db, rows);
            var (after, outcome) := ImportOne(before, row);
            ImportAll(db, rows + [row]) == (after, outcomes + [outcome])
    decreases |rows|
  {
    hide ImportOne;
    if rows == [] {
      assert rows + [row] == [row] && [row][1..] == [];
      assert [ImportOne(db, row).1] + [] == [] + [ImportOne(db, row).1];
    } else {
      assert (rows + [row])[1..] == rows[1..] + [row];
      var (next, first) := ImportOne(db, rows[0]);
      ImportAllSnoc(next, rows[1..], row);
      var (before, outcomes) := ImportAll(next, rows[1..]);
      var last := [ImportOne(before, row).1];
      assert [first] + (outcomes + last) == ([first] + outcomes) + last;
    }
  }

  lemma {:induction false} TallySnoc(rows: seq<ImportRow>, outcomes: seq<Outcome>, row: ImportRow, outcome: Outcome)
    requires |rows| == |outcomes|
    ensures var s := Tally(rows, outcomes);
            Tally(rows + [row], outcomes + [outcome])
            == match outcome
               case Created => s.(created := s.created + 1)
               case Skipped => s.(skipped := s.skipped + 1)
               case Failed => s.(errors := s.errors + [row.title])
  {
    assert (rows + [row])[..|rows|] == rows && (outcomes + [outcome])[..|rows|] == outcomes;
  }

  lemma {:induction false} TallyTotal(rows: seq<ImportRow>, outcomes: seq<Outcome>)
    requires |rows| == |outcomes|
    ensures var s := Tally(rows, outcomes); s.created + s.skipped + |s.errors| == |rows|
  {
    if rows != [] {
      TallyTotal(rows[..|rows| - 1], outcomes[..|rows| - 1]);
    }
  }

  class ImportService {
    var brands: seq<Brand>
    var products: seq<Product>
    var variants: seq<Variant>
    var nextId: nat

    function State(): Db
      reads this
    {
      Db(brands, products, variants, nextId)
    }

    /** One row in one transaction; a conflict half way rolls everything back. */
    method ImportRow(row: ImportRow) returns (outcome: Outcome)
      modifies this
      ensures (State(), outcome) == ImportOne(old(State()), row)
    {
      hide ImportSlug;
      var before := brands;
      var beforeId := nextId;
      var slug := ImportSlug(row.title);
      if SlugExists(State(), slug) {
        return Skipped;
      }
      var brandId := None;
      if NamesBrand(row) {
        brandId := FindBrand(brands, row.brand.value);
        if brandId == None {
          var brandSlug := ImportSlug(row.brand.value);
          if BrandSlugExists(State(), brandSlug) {
            return Failed;
          }
          brands := brands + [Brand(nextId, row.brand.value, brandSlug)];
          brandId := Some(nextId);
          nextId := nextId + 1;
        }
      }
      var productId := nextId;
      if SkuConflict(State(), row) {
        brands, nextId := before, beforeId;
        return Failed;
      }
      products := products + [Product(productId, row.title, slug, DRAFT, row.description, brandId)];
      variants := variants + [Variant(productId + 1, productId, "Default", row.sku, row.priceCents)];
      nextId := nextId + 2;
      return Created;
    }

    method ImportProducts(rows: seq<ImportRow>) returns (summary: Summary)
      modifies this
      ensures State() == ImportAll(old(State()), rows).0
      ensures summary == Tally(rows, ImportAll(old(State()), rows).1)
      ensures summary.created + summary.skipped + |summary.errors| == |rows|
    {
      hide ImportOne;
      var created: nat, skipped: nat, errors: seq<string> := 0, 0, [];
      ghost var start := State();
      ghost var done: seq<Outcome> := [];
      for k := 0 to |rows|
        invariant |done| == k && Summary(created, skipped, errors) == Tally(rows[..k], done)
        invariant ImportAll(start, rows[..k]) == (State(), done)
      {
        hide Tally, ImportAll;
        ghost var before := rows[..k];
        assert rows[..k + 1] == before + [rows[k]];
        ImportAllSnoc(start, before, rows[k]);
        TallySnoc(before, done, rows[k], ImportOne(State(), rows[k]).1);
        var outcome := ImportRow(rows[k]);
        match outcome {
          case Created => created := created + 1;
          case Skipped => skipped := skipped + 1;
          case Failed => errors := errors + [rows[k].title];
        }
        done := done + [outcome];
      }
      assert rows[..|rows|] == rows;
      summary := Summary(created, skipped, errors);
      TallyTotal(rows, done);
    }
  }

  // ----- Re-importing changes nothing ----------------------------------------------

  /** The row would create nothing. */
  predicate Settled(db: Db, row: ImportRow) {
    SlugExists(db, ImportSlug(row.title)) || BrandConflict(db, row) || SkuConflict(db, row)
  }

  lemma {:induction false} FindBrandAppend(brands: seq<Brand>, b: Brand, name: string)
    ensures FindBrand(brands + [b], name)
         == if FindBrand(brands, name).Some? then FindBrand(brands, name)
            else if b.name == name then Some(b.id) else None
  {
    if brands == [] {
      assert brands + [b] == [b] && [b][1..] == [];
    } else {
      assert (brands + [b])[1..] == brands[1..] + [b];
      FindBrandAppend(brands[1..], b, name);
    }
  }

  /** A brand conflict is permanent: the missing brand can never get its slug. */
  lemma {:induction false} BrandConflictStays(db: Db, other: ImportRow, row: ImportRow)
    requires BrandConflict(db, row)
    ensures BrandConflict(ImportOne(db, other).0, row)
  {
    hide ImportSlug;
    var after := ImportOne(db, other).0;
    if after.brands != db.brands {
      var b := after.brands[|db.brands|];
      assert after.brands == db.brands + [b];
      FindBrandAppend(db.brands, b, row.brand.value);
      assert !BrandConflict(db, other);
    }
    var i :| 0 <= i < |db.brands| && db.brands[i].slug == ImportSlug(row.brand.value);
    assert after.brands[i].slug == ImportSlug(row.brand.value);
  }

  lemma {:induction false} SettledStays(db: Db, other: ImportRow, row: ImportRow)
    requires Settled(db, row)
    ensures Settled(ImportOne(db, other).0, row)
  {
    hide ImportSlug;
    var after := ImportOne(db, other).0;
    if SlugExists(db, ImportSlug(row.title)) {
      var i :| 0 <= i < |db.products| && db.products[i].slug == ImportSlug(row.title);
      assert after.products[i].slug == ImportSlug(row.title);
    } else if BrandConflict(db, row) {
      BrandConflictStays(db, other, row);
    } else {
      var i :| 0 <= i < |db.variants| && db.variants[i].sku == Some(row.sku.value);
      assert after.variants[i].sku == Some(row.sku.value);
    }
  }

  lemma {:induction false} SettledAfter(db: Db, row: ImportRow)
    ensures Settled(ImportOne(db, row).0, row)
  {
    hide ImportSlug;
    var (after, outcome) := ImportOne(db, row);
    if outcome == Created {
      assert after.products[|db.products|].slug == ImportSlug(row.title);
    }
  }

  lemma {:induction false} SettledThroughout(db: Db, rows: seq<ImportRow>, row: ImportRow)
    requires Settled(db, row) || row in rows
    ensures Settled(ImportAll(db, rows).0, row)
    decreases |rows|
  {
    hide ImportSlug;
    if rows != [] {
      if Settled(db, row) {
        SettledStays(db, rows[0], row);
      } else if row == rows[0] {
        SettledAfter(db, row);
      }
      SettledThroughout(ImportOne(db, rows[0]).0, rows[1..], row);
    }
  }

  lemma {:induction false} SettledImport(db: Db, rows: seq<ImportRow>)
    requires forall row :: row in rows ==> Settled(db, row)
    ensures ImportAll(db, rows).0 == db
    ensures Created !in ImportAll(db, rows).1
    decreases |rows|
  {
    hide ImportSlug;
    if rows != [] {
      assert rows[0] in rows;
      SettledImport(db, rows[1..]);
    }
  }

  /**
   Any later file made of rows that were already processed, in any order and number
   and whatever their first outcome was, creates nothing and leaves every table as it is.
   */
  lemma {:induction false} Reimport(db: Db, rows: seq<ImportRow>, again: seq<ImportRow>)
    requires forall row :: row in again ==> row in rows
    ensures var after := ImportAll(db, rows).0;
            ImportAll(after, again).0 == after && Created !in ImportAll(after, again).1
  {
    forall row | row in again ensures Settled(ImportAll(db, rows).0, row) {
      SettledThroughout(db, rows, row);
    }
    SettledImport(ImportAll(db, rows).0, again);
  }

  // ----- What an import may write ----------------------------------------------------

  /** The unique constraints, and fresh identifiers. */
  ghost predicate Consistent(db: Db) {
    && (forall i, j :: 0 <= i < j < |db.products| ==> db.products[i].slug != db.products[j].slug)
    && (forall i, j :: 0 <= i < j < |db.brands| ==> db.brands[i].slug != db.brands[j].slug)
    && (forall i, j :: 0 <= i < j < |db.variants| && db.variants[i].sku.Some? ==>
          db.variants[i].sku != db.variants[j].sku)
    && (forall i :: 0 <= i < |db.products| ==> db.products[i].id < db.nextId)
    && (forall i :: 0 <= i < |db.variants| ==> db.variants[i].productId < db.nextId)
    && (forall i, j :: 0 <= i < j < |db.products| ==> db.products[i].id != db.products[j].id)
  }

  function VariantsOf(variants: seq<Variant>, productId: nat): seq<Variant> {
    if variants == [] then []
    else
      var n := |variants| - 1;
      VariantsOf(variants[..n], productId) + if variants[n].productId == productId then [variants[n]] else []
  }

  /** Old rows stay; every new product is a DRAFT with exactly one variant, called Default. */
  ghost predicate Extends(before: Db, after: Db) {
    && before.brands <= after.brands && before.products <= after.products && before.variants <= after.variants
    && before.nextId <= after.nextId
    && (forall i :: |before.products| <= i < |after.products| ==> NewProduct(after, after.products[i]))
  }

  ghost predicate NewProduct(db: Db, p: Product) {
    p.status == DRAFT
    && var vs := VariantsOf(db.variants, p.id);
       |vs| == 1 && vs[0].title == "Default"
  }

  lemma {:induction false} NoVariants(variants: seq<Variant>, id: nat)
    requires forall i :: 0 <= i < |variants| ==> variants[i].productId != id
    ensures VariantsOf(variants, id) == []
  {
    if variants != [] {
      NoVariants(variants[..|variants| - 1], id);
    }
  }

  lemma {:induction false} ImportOneConsistent(db: Db, row: ImportRow)
    requires Consistent(db)
    ensures Consistent(ImportOne(db, row).0)
  {
    hide ImportSlug;
    var (after, outcome) := ImportOne(db, row);
    if outcome == Created {
      var n := |db.brands|;
      assert forall i :: 0 <= i < n ==> after.brands[i] == db.brands[i];
      assert |after.brands| > n ==>
        !BrandSlugExists(db, ImportSlug(row.brand.value)) && after.brands[n].slug == ImportSlug(row.brand.value);
    }
  }

  lemma {:induction false} ImportOneIs(db: Db, row: ImportRow)
    ensures var (after, outcome) := ImportOne(db, row);
            var (branded, brandId) := WithBrand(db, row);
            && (outcome == Created ==> after == WithProduct(branded, row, brandId))
            && (outcome != Created ==> after == db)
            && db.brands <= branded.brands && db.nextId <= branded.nextId
            && branded.products == db.products && branded.variants == db.variants
  {
    hide ImportSlug, SlugExists, BrandConflict, SkuConflict, WithProduct;
  }

  lemma {:induction false} ImportOneExtends(db: Db, row: ImportRow)
    requires Consistent(db)
    ensures Extends(db, ImportOne(db, row).0)
  {
    hide ImportOne, WithBrand, ImportSlug;
    var (after, outcome) := ImportOne(db, row);
    ImportOneIs(db, row);
    if outcome == Created {
      var (branded, brandId) := WithBrand(db, row);
      var p, v := branded.nextId, Variant(branded.nextId + 1, branded.nextId, "Default", row.sku, row.priceCents);
      NoVariants(db.variants, p);
      assert (db.variants + [v])[..|db.variants|] == db.variants;
      assert VariantsOf(db.variants + [v], p) == [v];
    }
  }

  /** A later import leaves the variants of products that already exist alone. */
  lemma {:induction false} ImportOneKeepsVariants(db: Db, row: ImportRow, id: nat)
    requires id < db.nextId
    ensures VariantsOf(ImportOne(db, row).0.variants, id) == VariantsOf(db.variants, id)
  {
    hide ImportSlug;
    var (after, outcome) := ImportOne(db, row);
    if outcome == Created {
      assert after.variants[..|db.variants|] == db.variants;
    }
  }

  lemma {:induction false} ImportAllKeepsVariants(db: Db, rows: seq<ImportRow>, id: nat)
    requires id < db.nextId
    ensures VariantsOf(ImportAll(db, rows).0.variants, id) == VariantsOf(db.variants, id)
    decreases |rows|
  {
    hide ImportSlug;
    if rows != [] {
      ImportOneKeepsVariants(db, rows[0], id);
      ImportAllKeepsVariants(ImportOne(db, rows[0]).0, rows[1..], id);
    }
  }

  /** A whole import keeps the unique constraints, keeps every old row, and adds only drafts. */
  lemma {:induction false} ImportExtends(db: Db, rows: seq<ImportRow>)
    requires Consistent(db)
    ensures Consistent(ImportAll(db, rows).0) && Extends(db, ImportAll(db, rows).0)
    decreases |rows|
  {
    hide ImportSlug;
    if rows != [] {
      var next := ImportOne(db, rows[0]).0;
      var last := ImportAll(db, rows).0;
      ImportOneConsistent(db, rows[0]);
      ImportOneExtends(db, rows[0]);
      ImportExtends(next, rows[1..]);
      forall i | |db.products| <= i < |last.products| ensures NewProduct(last, last.products[i]) {
        if i < |next.products| {
          assert last.products[i] == next.products[i];
          ImportAllKeepsVariants(next, rows[1..], next.products[i].id);
        }
      }
    }
  }
}
