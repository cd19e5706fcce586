/** What catalogue operations write, row by row, and what the shop then lists. */
module Listings {
  import opened Text
  import opened Search

  // ----- Unique slugs and SKUs --------------------------------------------------------------

  ghost predicate SlugsUnique(s: State) {
    forall i, j :: 0 <= i < j < |s.products| ==>
      s.products[i].tenant != s.products[j].tenant || s.products[i].slug != s.products[j].slug
  }

  ghost predicate SkusUnique(s: State) {
    forall i, j :: 0 <= i < j < |s.variants| && s.variants[i].sku.Some? ==>
      s.variants[i].tenant != s.variants[j].tenant || s.variants[i].sku != s.variants[j].sku
  }

  lemma {:induction false} StepKeepsSlugs(s: State, l: Label)
    requires SlugsUnique(s)
    ensures SlugsUnique(Step(s, l))
  {
    hide PriceMin, BrandName, SkuTaken, ToDoc;
  }

  lemma {:induction false} StepKeepsSkus(s: State, l: Label)
    requires SkusUnique(s)
    ensures SkusUnique(Step(s, l))
  {
    hide PriceMin, BrandName, SlugTaken, ToDoc;
  }

  /** Over every run, no two products of a tenant share a slug and no two of its variants an SKU, deleted or not. */
  lemma {:induction false} RunKeepsUnique(s: State, ls: seq<Label>)
    requires SlugsUnique(s) && SkusUnique(s)
    ensures SlugsUnique(Run(s, ls)) && SkusUnique(Run(s, ls))
    decreases |ls|
  {
    hide Step, SlugsUnique, SkusUnique;
    if ls != [] {
      StepKeepsSlugs(s, ls[0]);
      StepKeepsSkus(s, ls[0]);
      RunKeepsUnique(Step(s, ls[0]), ls[1..]);
    }
  }

  /** The tenants and slugs of all products but one, deleted ones included. */
  function SlugsBut(s: State, id: nat): set<(string, string)> {
    set i | 0 <= i < |s.products| && i != id :: (s.products[i].tenant, s.products[i].slug)
  }

  /** The tenants and SKUs of all variants but one, deleted ones included. */
  function SkusBut(s: State, v: nat): set<(string, Option<string>)> {
    set i | 0 <= i < |s.variants| && i != v && s.variants[i].sku.Some? :: (s.variants[i].tenant, s.variants[i].sku)
  }

  lemma {:induction false} SlugTakenIff(s: State, tenant: string, slug: string, id: nat)
    ensures SlugTaken(s, tenant, slug, id) <==> (tenant, slug) in SlugsBut(s, id)
  {
  }

  lemma {:induction false} SkuTakenIff(s: State, tenant: string, sku: Option<string>, v: nat)
    ensures SkuTaken(s, tenant, sku, v) <==> (tenant, sku) in SkusBut(s, v)
  {
  }

  /**
   A write is refused exactly when its row is missing or another row of the same tenant has
   the slug or SKU it asks for; a refused write changes nothing.
   */
  lemma {:induction false} RefusedIff(s: State, l: Label)
    ensures Refused(s, l) ==> Step(s, l) == s
    ensures Refused(s, l) <==>
              match l
              case CreateProduct(tenant, _, slug, _, _) => (tenant, slug) in SlugsBut(s, |s.products|)
              case ImportDraft(tenant, _, slug, _, sku, _) =>
                (tenant, slug) in SlugsBut(s, |s.products|) || (tenant, sku) in SkusBut(s, |s.variants|)
              case UpdateProduct(id, _, slug, _, _) =>
                !LiveId(s, id) || (slug.Some? && (s.products[id].tenant, slug.value) in SlugsBut(s, id))
              case RemoveProduct(id) => !LiveId(s, id)
              case Publish(id) => !LiveId(s, id)
              case CreateVariant(id, sku, _) =>
                !LiveId(s, id) || (s.products[id].tenant, Some(sku)) in SkusBut(s, |s.variants|)
              case UpdateVariant(v, sku, _) => !LiveVariant(s, v) || (s.variants[v].tenant, sku) in SkusBut(s, v)
              case RemoveVariant(v) => !LiveVariant(s, v)
              case _ => false
  {
    hide SlugTaken, SkuTaken, SlugsBut, SkusBut;
    match l
    case CreateProduct(tenant, _, slug, _, _) => SlugTakenIff(s, tenant, slug, |s.products|);
    case ImportDraft(tenant, _, slug, _, sku, _) =>
      SlugTakenIff(s, tenant, slug, |s.products|);
      SkuTakenIff(s, tenant, sku, |s.variants|);
    case UpdateProduct(id, _, slug, _, _) =>
      if LiveId(s, id) && slug.Some? { SlugTakenIff(s, s.products[id].tenant, slug.value, id); }
    case CreateVariant(id, sku, _) =>
      if LiveId(s, id) { SkuTakenIff(s, s.products[id].tenant, Some(sku), |s.variants|); }
    case UpdateVariant(v, sku, _) =>
      if LiveVariant(s, v) { SkuTakenIff(s, s.variants[v].tenant, sku, v); }
    case _ =>
  }

  // ----- Rows ---------------------------------------------------------------------------------

  /** All products but one are as they were. */
  predicate OtherProductsSame(s: State, t: State, id: nat) {
    |s.products| <= |t.products| <= |s.products| + 1
    && forall i :: 0 <= i < |s.products| && i != id ==> t.products[i] == s.products[i]
  }

  predicate OtherVariantsSame(s: State, t: State, v: nat) {
    |s.variants| <= |t.variants| <= |s.variants| + 1
    && forall i :: 0 <= i < |s.variants| && i != v ==> t.variants[i] == s.variants[i]
  }

  /** A new product is live under its tenant with the given fields, and nothing else is written. */
  lemma {:induction false} CreateWrites(s: State, tenant: string, title: string, slug: string, status: Status,
                                        brand: Option<nat>)
    requires !SlugTaken(s, tenant, slug, |s.products|)
    ensures var t, id := Step(s, CreateProduct(tenant, title, slug, status, brand)), |s.products|;
            && |t.products| == id + 1 && OtherProductsSame(s, t, id) && LiveId(t, id)
            && t.products[id].tenant == tenant && t.products[id].title == title && t.products[id].slug == slug
            && t.products[id].status == status && t.products[id].brand == brand
            && t.variants == s.variants && t.brands == s.brands && t.index == s.index
  {
  }

  /** An import adds a draft with one live variant and calls no index. */
  lemma {:induction false} ImportWrites(s: State, tenant: string, title: string, slug: string, brand: Option<nat>,
                                        sku: Option<string>, price: int)
    requires !SlugTaken(s, tenant, slug, |s.products|) && !SkuTaken(s, tenant, sku, |s.variants|)
    ensures var t, id, v := Step(s, ImportDraft(tenant, title, slug, brand, sku, price)), |s.products|, |s.variants|;
            && |t.products| == id + 1 && OtherProductsSame(s, t, id) && LiveId(t, id)
            && t.products[id].tenant == tenant && t.products[id].title == title && t.products[id].slug == slug
            && t.products[id].status == DRAFT && t.products[id].brand == brand
            && |t.variants| == v + 1 && OtherVariantsSame(s, t, v) && LiveVariant(t, v)
            && t.variants[v].product == id && t.variants[v].tenant == tenant
            && t.variants[v].sku == sku && t.variants[v].priceCents == price
            && t.brands == s.brands && t.index == s.index && t.dirty == s.dirty
  {
  }

  /** An update sets the fields it gives and leaves the others. */
  lemma {:induction false} UpdateWrites(s: State, id: nat, title: Option<string>, slug: Option<string>,
                                        status: Option<Status>, brand: Option<Option<nat>>)
    requires LiveId(s, id) && (slug.Some? ==> !SlugTaken(s, s.products[id].tenant, slug.value, id))
    ensures var t := Step(s, UpdateProduct(id, title, slug, status, brand));
            && |t.products| == |s.products| && OtherProductsSame(s, t, id) && LiveId(t, id)
            && t.variants == s.variants && t.brands == s.brands && t.index == s.index
    ensures var p, q := s.products[id], Step(s, UpdateProduct(id, title, slug, status, brand)).products[id];
            && q.tenant == p.tenant
            && (title == Some(q.title) || (title == None && q.title == p.title))
            && (slug == Some(q.slug) || (slug == None && q.slug == p.slug))
            && (status == Some(q.status) || (status == None && q.status == p.status))
            && (brand == Some(q.brand) || (brand == None && q.brand == p.brand))
  {
  }

  /** Publishing makes a live product ACTIVE and leaves the rest of it. */
  lemma {:induction false} PublishWrites(s: State, id: nat)
    requires LiveId(s, id)
    ensures var t := Step(s, Publish(id));
            && |t.products| == |s.products| && OtherProductsSame(s, t, id)
            && LiveId(t, id) && t.products[id].status == ACTIVE
            && t.products[id].(status := s.products[id].status) == s.products[id]
            && t.variants == s.variants && t.brands == s.brands && t.index == s.index
  {
  }

  /** Removing marks a live product deleted and leaves the rest of it. */
  lemma {:induction false} RemoveWrites(s: State, id: nat)
    requires LiveId(s, id)
    ensures var t := Step(s, RemoveProduct(id));
            && |t.products| == |s.products| && OtherProductsSame(s, t, id) && !LiveId(t, id)
            && t.products[id].(deleted := false) == s.products[id]
            && t.variants == s.variants && t.brands == s.brands && t.index == s.index
  {
  }

  /** The three writes to variants: a new one under its product's tenant, a new SKU or price, a deletion mark. */
  lemma {:induction false} VariantWrites(s: State, l: Label)
    requires (l.CreateVariant? || l.UpdateVariant? || l.RemoveVariant?) && !Refused(s, l)
    ensures var t := Step(s, l);
            && t.products == s.products && t.brands == s.brands && t.index == s.index
            && match l
               case CreateVariant(id, sku, price) =>
                 var v := |s.variants|;
                 && |t.variants| == v + 1 && OtherVariantsSame(s, t, v) && LiveVariant(t, v)
                 && t.variants[v].product == id && id < |s.products| && t.variants[v].tenant == s.products[id].tenant
                 && t.variants[v].sku == Some(sku) && t.variants[v].priceCents == price
               case UpdateVariant(v, sku, price) =>
                 && |t.variants| == |s.variants| && OtherVariantsSame(s, t, v) && LiveVariant(t, v)
                 && (sku.Some? ==> t.variants[v].sku == sku) && (sku == None ==> t.variants[v].sku == s.variants[v].sku)
                 && (price == Some(t.variants[v].priceCents)
                     || (price == None && t.variants[v].priceCents == s.variants[v].priceCents))
                 && t.variants[v].product == s.variants[v].product && t.variants[v].tenant == s.variants[v].tenant
               case RemoveVariant(v) =>
                 && |t.variants| == |s.variants| && OtherVariantsSame(s, t, v) && v < |t.variants|
                 && t.variants[v].deleted && t.variants[v].(deleted := false) == s.variants[v]
               case _ => true
  {
    hide SlugTaken, SkuTaken;
  }

  // ----- What the shop lists --------------------------------------------------------------------

  /** The card of a product as its rows say. */
  function CardOfRow(s: State, id: nat): Card
    requires id < |s.products|
  {
    var p := s.products[id];
    Card(id, p.title, p.slug, PriceMin(s.variants, id), BrandName(s.brands, p.brand))
  }

  /**
   After a successful sync a product is listed on both paths as its rows say when it is
   live and ACTIVE, and otherwise on none.
   */
  lemma {:induction false} SyncLists(s: State, id: nat, tenant: string)
    ensures var t := Step(s, Sync(id));
            && (LiveId(s, id) && s.products[id].status == ACTIVE && s.products[id].tenant == tenant ==>
                  CardOfRow(s, id) in IndexCards(t, tenant) && CardOfRow(s, id) in DatabaseCards(t, tenant))
            && (!(LiveId(s, id) && s.products[id].status == ACTIVE && s.products[id].tenant == tenant) ==>
                  forall c :: c in IndexCards(t, tenant) || c in DatabaseCards(t, tenant) ==> c.id != id)
  {
    hide PriceMin, BrandName;
    var t := Step(s, Sync(id));
    if LiveId(s, id) && s.products[id].status == ACTIVE && s.products[id].tenant == tenant {
      assert t.index[id] == ToDoc(s, id);
      assert CardOf(t, id) == CardOfRow(s, id);
    }
  }

  lemma {:induction false} ServeOne(s: State, l: Label, call: Label)
    requires CallAfter(s, l) == [call]
    ensures Serve(s, l) == Step(Step(s, l), call)
  {
    assert [call] == [call] + [];
    RunCons(Step(s, l), call, []);
  }

  /** A published product whose index call gets through is listed on both paths. */
  lemma {:induction false} PublishedIsListed(s: State, id: nat)
    requires LiveId(s, id)
    ensures var t, tenant := Serve(s, Publish(id)), s.products[id].tenant;
            && id < |t.products| && t.products[id].status == ACTIVE
            && CardOfRow(s, id) in IndexCards(t, tenant) && CardOfRow(s, id) in DatabaseCards(t, tenant)
  {
    hide PriceMin, BrandName, IndexCards, DatabaseCards;
    var next := Step(s, Publish(id));
    PublishWrites(s, id);
    ServeOne(s, Publish(id), Sync(id));
    SyncLists(next, id, s.products[id].tenant);
    assert CardOfRow(next, id) == CardOfRow(s, id);
  }

  /** A removed product whose index call gets through is listed on neither path. */
  lemma {:induction false} RemovedIsUnlisted(s: State, id: nat, tenant: string)
    requires LiveId(s, id)
    ensures var t := Serve(s, RemoveProduct(id));
            forall c :: c in IndexCards(t, tenant) || c in DatabaseCards(t, tenant) ==> c.id != id
  {
    hide PriceMin, BrandName;
    RemoveWrites(s, id);
    ServeOne(s, RemoveProduct(id), Unindex(id));
  }
}
