/**
 The product catalogue service: each operation checks that the row exists, writes the
 database and then calls the search index, whose call may fail without failing the
 operation. `indexUp` says whether that call gets through.
 */
module Catalog {
  import opened Text
  import opened Search

  /** A missing row, or a slug or SKU that another row of the tenant has. */
  datatype Error = NotFound | Conflict

  lemma {:induction false} OneMoreLive(s: State, tenant: string, id: nat)
    requires id < |s.products|
    ensures var ids := LiveOf(s, tenant, id);
            LiveOf(s, tenant, id + 1) == if LiveId(s, id) && s.products[id].tenant == tenant then ids + {id} else ids
  {
  }

  class ProductsService {
    var products: seq<Product>
    var variants: seq<Variant>
    var brands: map<nat, string>
    var index: map<nat, Doc>
    ghost var dirty: set<nat>

    ghost function Snapshot(): State
      reads this
    {
      State(products, variants, brands, index, dirty)
    }

    ghost predicate Valid()
      reads this
    {
      Inv(Snapshot())
    }

    constructor ()
      ensures Snapshot() == EMPTY && Valid()
    {
      products, variants, brands, index, dirty := [], [], map[], map[], {};
    }

    predicate ProductExists(tenant: string, id: nat)
      reads this
    {
      id < |products| && !products[id].deleted && products[id].tenant == tenant
    }

    predicate VariantExists(tenant: string, v: nat)
      reads this
    {
      v < |variants| && !variants[v].deleted && variants[v].tenant == tenant
    }

    /** The minimum over the prices of the live variants. */
    method LeastPrice(id: nat) returns (price: Option<int>)
      ensures price == PriceMin(variants, id)
    {
      price := None;
      var i := 0;
      while i < |variants|
        invariant 0 <= i <= |variants|
        invariant price == PriceMin(variants[..i], id)
      {
        var v := variants[i];
        assert variants[..i + 1][..i] == variants[..i];
        if v.product == id && !v.deleted && (price.None? || v.priceCents < price.value) {
          price := Some(v.priceCents);
        }
        i := i + 1;
      }
      assert variants[..i] == variants;
    }

    method BuildDocument(id: nat) returns (doc: Doc)
      requires id < |products|
      ensures doc == ToDoc(Snapshot(), id)
    {
      var p := products[id];
      var price := LeastPrice(id);
      doc := Doc(p.tenant, p.title, p.slug, p.status, price, BrandName(brands, p.brand));
    }

    /** What the shop lists for the product is what its row says, or nothing when it is gone. */
    ghost predicate Listed(id: nat)
      reads this
    {
      if LiveId(Snapshot(), id) then id in index && index[id] == ToDoc(Snapshot(), id) else id !in index
    }

    /** Read the live product and write its document, or delete the document of a product that is gone. */
    method SyncProduct(id: nat, indexUp: bool)
      requires Valid()
      modifies `index, `dirty
      ensures Valid()
      ensures Snapshot() == if indexUp then Step(old(Snapshot()), Sync(id)) else old(Snapshot())
      ensures indexUp ==> Listed(id)
    {
      StepKeepsInv(Snapshot(), Sync(id));
      if indexUp {
        if id < |products| && !products[id].deleted {
          var doc := BuildDocument(id);
          index := index[id := doc];
        } else {
          index := index - {id};
        }
        dirty := dirty - {id};
      }
    }

    method Unindex(id: nat, indexUp: bool)
      requires Valid() && !LiveId(Snapshot(), id)
      modifies `index, `dirty
      ensures Valid()
      ensures Snapshot() == if indexUp then Step(old(Snapshot()), Label.Unindex(id)) else old(Snapshot())
    {
      StepKeepsInv(Snapshot(), Label.Unindex(id));
      if indexUp {
        index := index - {id};
        dirty := dirty - {id};
      }
    }

    method Create(tenant: string, title: string, slug: string, status: Status, brand: Option<nat>, indexUp: bool)
      returns (error: Option<Error>)
      requires Valid()
      modifies this
      ensures Valid()
      ensures error == if old(SlugTaken(Snapshot(), tenant, slug, |products|)) then Some(Conflict) else None
      ensures var s := Step(old(Snapshot()), CreateProduct(tenant, title, slug, status, brand));
              Snapshot() == if error == None && indexUp then Step(s, Sync(old(|products|))) else s
      ensures error == None && indexUp ==> Listed(old(|products|))
    {
      StepKeepsInv(Snapshot(), CreateProduct(tenant, title, slug, status, brand));
      hide Inv;
      var id := |products|;
      if SlugTaken(State(products, variants, brands, index, {}), tenant, slug, id) {
        return Some(Conflict);
      }
      products := products + [Product(tenant, title, slug, status, brand, false)];
      dirty := dirty + {id};
      SyncProduct(id, indexUp);
      return None;
    }

    /** The bulk import writes a draft with one variant and makes no index call. */
    method Import(tenant: string, title: string, slug: string, brand: Option<nat>, sku: Option<string>, priceCents: int)
      returns (created: bool)
      requires Valid()
      modifies this
      ensures Valid() && created == !old(Refused(Snapshot(), ImportDraft(tenant, title, slug, brand, sku, priceCents)))
      ensures Snapshot() == Step(old(Snapshot()), ImportDraft(tenant, title, slug, brand, sku, priceCents))
    {
      StepKeepsInv(Snapshot(), ImportDraft(tenant, title, slug, brand, sku, priceCents));
      hide Inv;
      var s := State(products, variants, brands, index, {});
      var id := |products|;
      if SlugTaken(s, tenant, slug, id) || SkuTaken(s, tenant, sku, |variants|) {
        return false;
      }
      products := products + [Product(tenant, title, slug, DRAFT, brand, false)];
      variants := variants + [Variant(id, tenant, sku, priceCents, false)];
      return true;
    }

    /** Only the fields given are changed. */
    method Update(tenant: string, id: nat, title: Option<string>, slug: Option<string>, status: Option<Status>,
                  brand: Option<Option<nat>>, indexUp: bool)
      returns (error: Option<Error>)
      requires Valid()
      modifies this
      ensures Valid()
      ensures error == Some(NotFound) <==> !old(ProductExists(tenant, id))
      ensures error == Some(Conflict) <==>
                old(ProductExists(tenant, id)) && slug.Some? && old(SlugTaken(Snapshot(), tenant, slug.value, id))
      ensures var s := Step(old(Snapshot()), UpdateProduct(id, title, slug, status, brand));
              Snapshot() == if error != None then old(Snapshot()) else if indexUp then Step(s, Sync(id)) else s
      ensures error == None && indexUp ==> Listed(id)
    {
      if !ProductExists(tenant, id) {
        return Some(NotFound);
      }
      StepKeepsInv(Snapshot(), UpdateProduct(id, title, slug, status, brand));
      hide Inv;
      if slug.Some? && SlugTaken(State(products, variants, brands, index, {}), tenant, slug.value, id) {
        return Some(Conflict);
      }
      var p := products[id];
      if title.Some? { p := p.(title := title.value); }
      if slug.Some? { p := p.(slug := slug.value); }
      if status.Some? { p := p.(status := status.value); }
      if brand.Some? { p := p.(brand := brand.value); }
      products := products[id := p];
      dirty := dirty + {id};
      SyncProduct(id, indexUp);
      return None;
    }

    method Remove(tenant: string, id: nat, indexUp: bool) returns (error: Option<Error>)
      requires Valid()
      modifies this
      ensures Valid() && error == if old(ProductExists(tenant, id)) then None else Some(NotFound)
      ensures var s := Step(old(Snapshot()), RemoveProduct(id));
              Snapshot() == if error != None then old(Snapshot()) else if indexUp then Step(s, Label.Unindex(id)) else s
      ensures error == None && indexUp ==> Listed(id)
    {
      if !ProductExists(tenant, id) {
        return Some(NotFound);
      }
      StepKeepsInv(Snapshot(), RemoveProduct(id));
      hide Inv;
      products := products[id := products[id].(deleted := true)];
      dirty := dirty + {id};
      Unindex(id, indexUp);
      return None;
    }

    method Publish(tenant: string, id: nat, indexUp: bool) returns (error: Option<Error>)
      requires Valid()
      modifies this
      ensures Valid() && error == if old(ProductExists(tenant, id)) then None else Some(NotFound)
      ensures var s := Step(old(Snapshot()), Label.Publish(id));
              Snapshot() == if error != None then old(Snapshot()) else if indexUp then Step(s, Sync(id)) else s
      ensures error == None && indexUp ==> Listed(id)
    {
      if !ProductExists(tenant, id) {
        return Some(NotFound);
      }
      StepKeepsInv(Snapshot(), Label.Publish(id));
      hide Inv;
      products := products[id := products[id].(status := ACTIVE)];
      dirty := dirty + {id};
      SyncProduct(id, indexUp);
      return None;
    }

    method CreateVariant(tenant: string, id: nat, sku: string, priceCents: int, indexUp: bool)
      returns (error: Option<Error>)
      requires Valid()
      modifies this
      ensures Valid()
      ensures error == Some(NotFound) <==> !old(ProductExists(tenant, id))
      ensures error == Some(Conflict) <==>
                old(ProductExists(tenant, id)) && old(SkuTaken(Snapshot(), tenant, Some(sku), |variants|))
      ensures var s := Step(old(Snapshot()), Label.CreateVariant(id, sku, priceCents));
              Snapshot() == if error != None then old(Snapshot()) else if indexUp then Step(s, Sync(id)) else s
      ensures error == None && indexUp ==> Listed(id)
    {
      if !ProductExists(tenant, id) {
        return Some(NotFound);
      }
      StepKeepsInv(Snapshot(), Label.CreateVariant(id, sku, priceCents));
      hide Inv;
      if SkuTaken(State(products, variants, brands, index, {}), tenant, Some(sku), |variants|) {
        return Some(Conflict);
      }
      variants := variants + [Variant(id, tenant, Some(sku), priceCents, false)];
      dirty := dirty + {id};
      SyncProduct(id, indexUp);
      return None;
    }

    method UpdateVariant(tenant: string, v: nat, sku: Option<string>, priceCents: Option<int>, indexUp: bool)
      returns (error: Option<Error>)
      requires Valid()
      modifies this
      ensures Valid()
      ensures error == Some(NotFound) <==> !old(VariantExists(tenant, v))
      ensures error == Some(Conflict) <==> old(VariantExists(tenant, v)) && old(SkuTaken(Snapshot(), tenant, sku, v))
      ensures var s := Step(old(Snapshot()), Label.UpdateVariant(v, sku, priceCents));
              Snapshot() == if error != None then old(Snapshot())
                            else if indexUp then Step(s, Sync(s.variants[v].product)) else s
      ensures error == None && indexUp ==> Listed(variants[v].product)
    {
      hide ToDoc, LiveOf, Docs, Inv;
      if !VariantExists(tenant, v) {
        return Some(NotFound);
      }
      StepKeepsInv(Snapshot(), Label.UpdateVariant(v, sku, priceCents));
      if SkuTaken(State(products, variants, brands, index, {}), tenant, sku, v) {
        return Some(Conflict);
      }
      var w := variants[v];
      if sku.Some? { w := w.(sku := sku); }
      if priceCents.Some? { w := w.(priceCents := priceCents.value); }
      variants := variants[v := w];
      dirty := dirty + {w.product};
      SyncProduct(w.product, indexUp);
      return None;
    }

    method RemoveVariant(tenant: string, v: nat, indexUp: bool) returns (error: Option<Error>)
      requires Valid()
      modifies this
      ensures Valid() && error == if old(VariantExists(tenant, v)) then None else Some(NotFound)
      ensures var s := Step(old(Snapshot()), Label.RemoveVariant(v));
              Snapshot() == if error != None then old(Snapshot())
                            else if indexUp then Step(s, Sync(s.variants[v].product)) else s
      ensures error == None && indexUp ==> Listed(variants[v].product)
    {
      if !VariantExists(tenant, v) {
        return Some(NotFound);
      }
      StepKeepsInv(Snapshot(), Label.RemoveVariant(v));
      hide Inv;
      var id := variants[v].product;
      variants := variants[v := variants[v].(deleted := true)];
      dirty := dirty + {id};
      SyncProduct(id, indexUp);
      return None;
    }

    method BuildDocuments(tenant: string) returns (docs: map<nat, Doc>)
      ensures docs == Docs(Snapshot(), LiveOf(Snapshot(), tenant, |products|))
    {
      docs := map[];
      var id := 0;
      while id < |products|
        invariant 0 <= id <= |products|
        invariant docs == Docs(Snapshot(), LiveOf(Snapshot(), tenant, id))
      {
        OneMoreLive(Snapshot(), tenant, id);
        if ProductExists(tenant, id) {
          var doc := BuildDocument(id);
          docs := docs[id := doc];
        }
        id := id + 1;
      }
    }

    /** Build the documents of the tenant's live products, add them and count them; nothing is deleted. */
    method ReindexTenant(tenant: string) returns (indexed: nat)
      requires Valid()
      modifies `index, `dirty
      ensures Valid()
      ensures Snapshot() == Step(old(Snapshot()), Reindex(tenant))
      ensures indexed == |LiveOf(old(Snapshot()), tenant, |products|)|
    {
      hide Inv, ToDoc, LiveOf;
      StepKeepsInv(Snapshot(), Reindex(tenant));
      var docs := BuildDocuments(tenant);
      index := index + docs;
      dirty := dirty - LiveOf(old(Snapshot()), tenant, |products|);
      indexed := |docs|;
      assert docs.Keys == LiveOf(old(Snapshot()), tenant, |products|);
    }
  }
}
