/**
 The search index as a cache of the catalogue. Every catalogue write is one step and
 the index call that follows it is another, which may be delayed, fail or never come;
 the storefront reads either the index or the database.
 */
module Search {
  import opened Text

  datatype Status = DRAFT | PENDING_REVIEW | ACTIVE | ARCHIVED

  /** Ids are table indices, so they are unique across tenants. */
  datatype Product = Product(tenant: string, title: string, slug: string, status: Status,
                             brand: Option<nat>, deleted: bool)

  datatype Variant = Variant(product: nat, tenant: string, sku: Option<string>, priceCents: int, deleted: bool)

  /** An index document; its id is the key it is stored under. */
  datatype Doc = Doc(tenant: string, title: string, slug: string, status: Status,
                     priceMinCents: Option<int>, brandName: Option<string>)

  /** `dirty` remembers the products written since their last successful index call. */
  datatype State = State(products: seq<Product>, variants: seq<Variant>, brands: map<nat, string>,
                         index: map<nat, Doc>, dirty: set<nat>)

  const EMPTY := State([], [], map[], map[], {})

  // ----- Projections ---------------------------------------------------------------------

  /** The least price of the product's live variants. */
  function PriceMin(variants: seq<Variant>, product: nat): Option<int> {
    if variants == [] then None
    else
      var n := |variants| - 1;
      var rest, v := PriceMin(variants[..n], product), variants[n];
      if v.product != product || v.deleted then rest
      else if rest.Some? && rest.value <= v.priceCents then rest
      else Some(v.priceCents)
  }

  function BrandName(brands: map<nat, string>, brand: Option<nat>): Option<string> {
    if brand.Some? && brand.value in brands then Some(brands[brand.value]) else None
  }

  predicate LiveId(s: State, id: nat) {
    id < |s.products| && !s.products[id].deleted
  }

  function ToDoc(s: State, id: nat): Doc
    requires id < |s.products|
  {
    var p := s.products[id];
    Doc(p.tenant, p.title, p.slug, p.status, PriceMin(s.variants, id), BrandName(s.brands, p.brand))
  }

  /** What a shopper sees of a product. */
  datatype Card = Card(id: nat, title: string, slug: string, priceMinCents: Option<int>, brandName: Option<string>)

  /** The slow path: live ACTIVE products of the tenant. */
  function DatabaseCards(s: State, tenant: string): set<Card> {
    set id | 0 <= id < |s.products| && !s.products[id].deleted && s.products[id].status == ACTIVE
             && s.products[id].tenant == tenant
      :: Card(id, s.products[id].title, s.products[id].slug, PriceMin(s.variants, id),
              BrandName(s.brands, s.products[id].brand))
  }

  /** The fast path: ACTIVE documents of the tenant, for the empty query. */
  function IndexCards(s: State, tenant: string): set<Card> {
    set id | id in s.index && s.index[id].status == ACTIVE && s.index[id].tenant == tenant
      :: Card(id, s.index[id].title, s.index[id].slug, s.index[id].priceMinCents, s.index[id].brandName)
  }

  function NoBrand(c: Card): Card {
    c.(brandName := None)
  }

  function Unbranded(cards: set<Card>): set<Card> {
    set c | c in cards :: NoBrand(c)
  }

  // ----- Steps ---------------------------------------------------------------------------

  datatype Label =
    | CreateProduct(tenant: string, title: string, slug: string, status: Status, brand: Option<nat>)
    | ImportDraft(importTenant: string, importTitle: string, importSlug: string, importBrand: Option<nat>,
                  importSku: Option<string>, price: int)
    | UpdateProduct(id: nat, newTitle: Option<string>, newSlug: Option<string>, newStatus: Option<Status>,
                    newBrand: Option<Option<nat>>)
    | RemoveProduct(removed: nat)
    | Publish(published: nat)
    | CreateVariant(owner: nat, sku: string, priceCents: int)
    | UpdateVariant(variant: nat, newSku: Option<string>, newPrice: Option<int>)
    | RemoveVariant(removedVariant: nat)
    | EditBrand(edited: nat, name: Option<string>)
    | Sync(synced: nat)
    | Unindex(unindexed: nat)
    | Reindex(reindexed: string)

  function Or<T>(change: Option<T>, current: T): T {
    if change.Some? then change.value else current
  }

  function Write(s: State, id: nat, p: Product): State
    requires id < |s.products|
  {
    s.(products := s.products[id := p], dirty := s.dirty + {id})
  }

  predicate LiveVariant(s: State, v: nat) {
    v < |s.variants| && !s.variants[v].deleted
  }

  /** Read the product and write or delete its document. */
  function SyncProduct(s: State, id: nat): State {
    s.(index := if LiveId(s, id) then s.index[id := ToDoc(s, id)] else s.index - {id}, dirty := s.dirty - {id})
  }

  /** The tenant's live products among the first `n`. */
  function LiveOf(s: State, tenant: string, n: nat): (ids: set<nat>)
    requires n <= |s.products|
    ensures forall id :: id in ids ==> id < n
  {
    set id | 0 <= id < n && LiveId(s, id) && s.products[id].tenant == tenant
  }

  function Docs(s: State, ids: set<nat>): map<nat, Doc>
    requires forall id :: id in ids ==> id < |s.products|
  {
    map id | id in ids :: ToDoc(s, id)
  }

  /** Write the documents of all live products of the tenant; nothing is deleted. */
  function ReindexTenant(s: State, tenant: string): State {
    var ids := LiveOf(s, tenant, |s.products|);
    s.(index := s.index + Docs(s, ids), dirty := s.dirty - ids)
  }

  /** Another product of the tenant, live or not, has the slug. */
  predicate SlugTaken(s: State, tenant: string, slug: string, id: nat) {
    exists i | 0 <= i < |s.products| :: i != id && s.products[i].tenant == tenant && s.products[i].slug == slug
  }

  /** Another variant of the tenant, live or not, has the SKU. */
  predicate SkuTaken(s: State, tenant: string, sku: Option<string>, v: nat) {
    sku.Some?
    && exists i | 0 <= i < |s.variants| :: i != v && s.variants[i].tenant == tenant && s.variants[i].sku == sku
  }

  /** The row is not found, or the write breaks a unique constraint. */
  predicate Refused(s: State, l: Label) {
    match l
    case CreateProduct(tenant, _, slug, _, _) => SlugTaken(s, tenant, slug, |s.products|)
    case ImportDraft(tenant, _, slug, _, sku, _) =>
      SlugTaken(s, tenant, slug, |s.products|) || SkuTaken(s, tenant, sku, |s.variants|)
    case UpdateProduct(id, _, slug, _, _) =>
      !LiveId(s, id) || (slug.Some? && SlugTaken(s, s.products[id].tenant, slug.value, id))
    case RemoveProduct(id) => !LiveId(s, id)
    case Publish(id) => !LiveId(s, id)
    case CreateVariant(id, sku, _) =>
      !LiveId(s, id) || SkuTaken(s, s.products[id].tenant, Some(sku), |s.variants|)
    case UpdateVariant(v, sku, _) => !LiveVariant(s, v) || SkuTaken(s, s.variants[v].tenant, sku, v)
    case RemoveVariant(v) => !LiveVariant(s, v)
    case _ => false
  }

  /** A refused write changes nothing. */
  function Step(s: State, l: Label): State {
    if Refused(s, l) then s
    else
      match l
      case CreateProduct(tenant, title, slug, status, brand) =>
        s.(products := s.products + [Product(tenant, title, slug, status, brand, false)],
           dirty := s.dirty + {|s.products|})
      case ImportDraft(tenant, title, slug, brand, sku, price) =>
        s.(products := s.products + [Product(tenant, title, slug, DRAFT, brand, false)],
           variants := s.variants + [Variant(|s.products|, tenant, sku, price, false)])
      case UpdateProduct(id, title, slug, status, brand) =>
        var p := s.products[id];
        Write(s, id, p.(title := Or(title, p.title), slug := Or(slug, p.slug),
                        status := Or(status, p.status), brand := Or(brand, p.brand)))
      case RemoveProduct(id) => Write(s, id, s.products[id].(deleted := true))
      case Publish(id) => Write(s, id, s.products[id].(status := ACTIVE))
      case CreateVariant(id, sku, price) =>
        s.(variants := s.variants + [Variant(id, s.products[id].tenant, Some(sku), price, false)],
           dirty := s.dirty + {id})
      case UpdateVariant(v, sku, price) =>
        var w := s.variants[v];
        s.(variants := s.variants[v := w.(sku := if sku.Some? then sku else w.sku,
                                            priceCents := Or(price, w.priceCents))],
           dirty := s.dirty + {w.product})
      case RemoveVariant(v) =>
        s.(variants := s.variants[v := s.variants[v].(deleted := true)], dirty := s.dirty + {s.variants[v].product})
      case EditBrand(b, name) =>
        s.(brands := if name.Some? then s.brands[b := name.value] else s.brands - {b})
      case Sync(id) => SyncProduct(s, id)
      case Unindex(id) => if LiveId(s, id) then s else s.(index := s.index - {id}, dirty := s.dirty - {id})
      case Reindex(tenant) => ReindexTenant(s, tenant)
  }

  function Run(s: State, ls: seq<Label>): State
    decreases |ls|
  {
    if ls == [] then s else Run(Step(s, ls[0]), ls[1..])
  }

  // ----- The invariant --------------------------------------------------------------------

  /** Outside the dirty set, a document is the product's, up to the brand name, and only live products have one. */
  ghost predicate Agrees(s: State, id: nat) {
    if LiveId(s, id) then
      if id in s.index then s.index[id].(brandName := None) == ToDoc(s, id).(brandName := None)
      else s.products[id].status != ACTIVE
    else id !in s.index
  }

  ghost predicate BrandCurrent(s: State, id: nat) {
    id in s.index && LiveId(s, id) ==> s.index[id].brandName == ToDoc(s, id).brandName
  }

  ghost predicate Inv(s: State) {
    && (forall v :: 0 <= v < |s.variants| ==> s.variants[v].product < |s.products|)
    && (forall id: nat :: id !in s.dirty ==> Agrees(s, id))
  }

  /** Changing variants of other products leaves the least price alone. */
  lemma {:induction false} PriceMinOther(a: seq<Variant>, b: seq<Variant>, product: nat)
    requires |a| == |b|
    requires forall v :: 0 <= v < |a| ==> a[v] == b[v] || (a[v].product != product && b[v].product != product)
    ensures PriceMin(a, product) == PriceMin(b, product)
  {
    if a != [] {
      var n := |a| - 1;
      assert forall v :: 0 <= v < n ==> a[..n][v] == a[v] && b[..n][v] == b[v];
      PriceMinOther(a[..n], b[..n], product);
    }
  }

  lemma {:induction false} PriceMinAppend(variants: seq<Variant>, v: Variant, product: nat)
    requires v.product != product
    ensures PriceMin(variants + [v], product) == PriceMin(variants, product)
  {
    assert (variants + [v])[..|variants|] == variants;
  }

  /** A product's row and prices are the same in both states. */
  ghost predicate SameProduct(s: State, t: State, id: nat) {
    && (id < |s.products| <==> id < |t.products|)
    && (id < |s.products| ==> s.products[id] == t.products[id])
    && PriceMin(s.variants, id) == PriceMin(t.variants, id)
    && (id in s.index <==> id in t.index)
    && (id in s.index ==> s.index[id] == t.index[id])
  }

  lemma {:induction false} StillAgrees(s: State, t: State, id: nat)
    requires SameProduct(s, t, id)
    ensures Agrees(s, id) <==> Agrees(t, id)
    ensures s.brands == t.brands ==> (BrandCurrent(s, id) <==> BrandCurrent(t, id))
  {
    hide PriceMin;
  }

  /** A catalogue write leaves every product alone that it does not mark dirty; an import adds an unindexed draft. */
  lemma {:induction false} WriteTouches(s: State, l: Label, id: nat)
    requires Inv(s) && !l.Sync? && !l.Unindex? && !l.Reindex?
    requires id !in Step(s, l).dirty && !(l.ImportDraft? && id == |s.products|)
    ensures id !in s.dirty && SameProduct(s, Step(s, l), id)
  {
    hide PriceMin, BrandName;
    hide SlugTaken, SkuTaken;
    if !Refused(s, l) {
      match l {
        case ImportDraft(tenant, _, _, _, sku, price) =>
          PriceMinAppend(s.variants, Variant(|s.products|, tenant, sku, price, false), id);
        case CreateVariant(owner, sku, price) =>
          PriceMinAppend(s.variants, Variant(owner, s.products[owner].tenant, Some(sku), price, false), id);
        case UpdateVariant(_, _, _) => PriceMinOther(s.variants, Step(s, l).variants, id);
        case RemoveVariant(_) => PriceMinOther(s.variants, Step(s, l).variants, id);
        case _ =>
      }
    }
  }

  lemma {:induction false} StepKeepsInv(s: State, l: Label)
    requires Inv(s)
    ensures Inv(Step(s, l))
  {
    var t := Step(s, l);
    if !l.Sync? && !l.Unindex? && !l.Reindex? {
      forall id: nat | id !in t.dirty ensures Agrees(t, id) {
        if l.ImportDraft? && id == |s.products| {
          assert s.dirty == t.dirty && Agrees(s, id);
        } else {
          WriteTouches(s, l, id);
          StillAgrees(s, t, id);
        }
      }
      VariantsOwned(s, l);
    } else {
      forall id: nat | id !in t.dirty ensures Agrees(t, id) {
        IndexStepAgrees(s, l, id);
      }
    }
  }

  lemma {:induction false} VariantsOwned(s: State, l: Label)
    requires forall v :: 0 <= v < |s.variants| ==> s.variants[v].product < |s.products|
    ensures forall v :: 0 <= v < |Step(s, l).variants| ==> Step(s, l).variants[v].product < |Step(s, l).products|
  {
    hide PriceMin, BrandName;
  }

  lemma {:induction false} IndexStepAgrees(s: State, l: Label, id: nat)
    requires Inv(s) && (l.Sync? || l.Unindex? || l.Reindex?) && id !in Step(s, l).dirty
    ensures Agrees(Step(s, l), id)
  {
    hide PriceMin, BrandName;
    if id !in s.dirty { assert Agrees(s, id); }
  }

  lemma {:induction false} RunKeepsInv(s: State, ls: seq<Label>)
    requires Inv(s)
    ensures Inv(Run(s, ls))
    decreases |ls|
  {
    if ls != [] {
      StepKeepsInv(s, ls[0]);
      hide Step, Inv;
      RunKeepsInv(Step(s, ls[0]), ls[1..]);
    }
  }

  // ----- Fast path and slow path ----------------------------------------------------------

  lemma {:induction false} CardsAgree(s: State, tenant: string)
    requires Inv(s) && forall id: nat :: id in s.dirty ==> id < |s.products| && s.products[id].tenant != tenant
                                                           && (id in s.index ==> s.index[id].tenant != tenant)
    ensures Unbranded(IndexCards(s, tenant)) == Unbranded(DatabaseCards(s, tenant))
    ensures (forall id: nat :: id !in s.dirty ==> BrandCurrent(s, id)) ==>
              IndexCards(s, tenant) == DatabaseCards(s, tenant)
  {
    hide PriceMin, BrandName;
    var fast, slow := IndexCards(s, tenant), DatabaseCards(s, tenant);
    forall c ensures c in Unbranded(fast) <==> c in Unbranded(slow) {
      assert c.id !in s.dirty ==> Agrees(s, c.id);
      if c in Unbranded(fast) {
        var f :| f in fast && NoBrand(f) == c;
        var d := Card(f.id, f.title, f.slug, f.priceMinCents, BrandName(s.brands, s.products[f.id].brand));
        assert d in slow && NoBrand(d) == c;
      }
      if c in Unbranded(slow) {
        var d :| d in slow && NoBrand(d) == c;
        var f := Card(d.id, d.title, d.slug, d.priceMinCents, s.index[d.id].brandName);
        assert f in fast && NoBrand(f) == c;
      }
    }
    if forall id: nat :: id !in s.dirty ==> BrandCurrent(s, id) {
      forall c ensures c in fast <==> c in slow {
        assert c.id !in s.dirty ==> Agrees(s, c.id) && BrandCurrent(s, c.id);
      }
    }
  }

  /**
   After any run in which every write of the tenant's products was followed, at some
   point, by a successful index call, both branches of the product list show the same
   cards up to the brand name.
   */
  lemma {:induction false} FastPathAgrees(ls: seq<Label>, tenant: string)
    requires var s := Run(EMPTY, ls);
             forall id: nat :: id in s.dirty ==> id < |s.products| && s.products[id].tenant != tenant
    ensures var s := Run(EMPTY, ls);
            Unbranded(IndexCards(s, tenant)) == Unbranded(DatabaseCards(s, tenant))
  {
    assert Inv(EMPTY);
    RunKeepsInv(EMPTY, ls);
    TenantsFixed(EMPTY, ls);
    CardsAgree(Run(EMPTY, ls), tenant);
  }

  /** Documents carry the tenant of their product. */
  ghost predicate SameTenants(s: State) {
    forall id :: id in s.index ==> id < |s.products| && s.index[id].tenant == s.products[id].tenant
  }

  lemma {:induction false} TenantsFixed(s: State, ls: seq<Label>)
    requires SameTenants(s)
    ensures SameTenants(Run(s, ls))
    decreases |ls|
  {
    if ls != [] {
      StepTenants(s, ls[0]);
      hide Step, SameTenants;
      TenantsFixed(Step(s, ls[0]), ls[1..]);
    }
  }

  lemma {:induction false} StepTenants(s: State, l: Label)
    requires SameTenants(s)
    ensures SameTenants(Step(s, l))
  {
    hide PriceMin, BrandName;
  }

  ghost predicate BrandsCurrent(s: State) {
    forall id: nat :: id !in s.dirty ==> BrandCurrent(s, id)
  }

  lemma {:induction false} StepKeepsBrands(s: State, l: Label)
    requires Inv(s) && BrandsCurrent(s) && !l.EditBrand?
    ensures BrandsCurrent(Step(s, l))
  {
    var t := Step(s, l);
    forall id: nat | id !in t.dirty ensures BrandCurrent(t, id) {
      if l.Sync? || l.Unindex? || l.Reindex? {
        hide PriceMin, BrandName;
        if id !in s.dirty { assert BrandCurrent(s, id) && Agrees(s, id); }
      } else if l.ImportDraft? && id == |s.products| {
        assert Agrees(s, id);
      } else {
        WriteTouches(s, l, id);
        StillAgrees(s, t, id);
      }
    }
  }

  lemma {:induction false} RunKeepsBrands(s: State, ls: seq<Label>)
    requires Inv(s) && BrandsCurrent(s) && forall k :: 0 <= k < |ls| ==> !ls[k].EditBrand?
    ensures BrandsCurrent(Run(s, ls))
    decreases |ls|
  {
    if ls != [] {
      StepKeepsInv(s, ls[0]);
      StepKeepsBrands(s, ls[0]);
      hide Step, Inv, BrandsCurrent;
      RunKeepsBrands(Step(s, ls[0]), ls[1..]);
    }
  }

  /** Without brand edits, the cards agree in full. */
  lemma {:induction false} FastPathAgreesInFull(ls: seq<Label>, tenant: string)
    requires forall k :: 0 <= k < |ls| ==> !ls[k].EditBrand?
    requires var s := Run(EMPTY, ls);
             forall id: nat :: id in s.dirty ==> id < |s.products| && s.products[id].tenant != tenant
    ensures IndexCards(Run(EMPTY, ls), tenant) == DatabaseCards(Run(EMPTY, ls), tenant)
  {
    assert Inv(EMPTY);
    RunKeepsInv(EMPTY, ls);
    RunKeepsBrands(EMPTY, ls);
    TenantsFixed(EMPTY, ls);
    CardsAgree(Run(EMPTY, ls), tenant);
  }

  // ----- Operations whose index call gets through -------------------------------------------

  predicate IsIndexCall(l: Label) {
    l.Sync? || l.Unindex? || l.Reindex?
  }

  /** The index call an operation makes after its write: none when it was refused, and none for imports and brands. */
  function CallAfter(s: State, l: Label): seq<Label> {
    if Refused(s, l) then []
    else
      match l
      case CreateProduct(_, _, _, _, _) => [Sync(|s.products|)]
      case UpdateProduct(id, _, _, _, _) => [Sync(id)]
      case RemoveProduct(id) => [Unindex(id)]
      case Publish(id) => [Sync(id)]
      case CreateVariant(id, _, _) => [Sync(id)]
      case UpdateVariant(v, _, _) => [Sync(s.variants[v].product)]
      case RemoveVariant(v) => [Sync(s.variants[v].product)]
      case _ => []
  }

  /** The write and its successful index call. */
  function Serve(s: State, l: Label): State {
    Run(Step(s, l), CallAfter(s, l))
  }

  function ServeAll(s: State, ls: seq<Label>): State
    decreases |ls|
  {
    if ls == [] then s else ServeAll(Serve(s, ls[0]), ls[1..])
  }

  lemma {:induction false} ServeLeavesNothingDirty(s: State, l: Label)
    requires s.dirty == {} && !IsIndexCall(l)
    ensures Serve(s, l).dirty == {}
  {
    hide PriceMin, BrandName;
    var call := CallAfter(s, l);
    if call == [] {
      assert Serve(s, l) == Step(s, l);
    } else {
      assert call == [call[0]] + [];
      RunCons(Step(s, l), call[0], []);
      assert Serve(s, l) == Step(Step(s, l), call[0]);
    }
  }

  lemma {:induction false} ServeAllKeeps(s: State, ls: seq<Label>)
    requires Inv(s) && s.dirty == {} && forall k :: 0 <= k < |ls| ==> !IsIndexCall(ls[k])
    ensures var t := ServeAll(s, ls);
            && Inv(t) && t.dirty == {}
            && (BrandsCurrent(s) && (forall k :: 0 <= k < |ls| ==> !ls[k].EditBrand?) ==> BrandsCurrent(t))
    decreases |ls|
  {
    if ls != [] {
      var l := ls[0];
      StepKeepsInv(s, l);
      RunKeepsInv(Step(s, l), CallAfter(s, l));
      ServeLeavesNothingDirty(s, l);
      if BrandsCurrent(s) && !l.EditBrand? {
        StepKeepsBrands(s, l);
        RunKeepsBrands(Step(s, l), CallAfter(s, l));
      }
      hide Step, Inv, BrandsCurrent, Run;
      ServeAllKeeps(Serve(s, l), ls[1..]);
    }
  }

  /**
   When index calls succeed, any sequence of product and variant operations, draft
   imports and brand edits leaves the two branches of the product list with the same
   cards up to the brand name, for every tenant; without brand edits, with the same cards.
   */
  lemma {:induction false} ServedPathsAgree(ls: seq<Label>, tenant: string)
    requires forall k :: 0 <= k < |ls| ==> !IsIndexCall(ls[k])
    ensures var s := ServeAll(EMPTY, ls);
            && Unbranded(IndexCards(s, tenant)) == Unbranded(DatabaseCards(s, tenant))
            && ((forall k :: 0 <= k < |ls| ==> !ls[k].EditBrand?) ==> IndexCards(s, tenant) == DatabaseCards(s, tenant))
  {
    assert Inv(EMPTY) && BrandsCurrent(EMPTY);
    ServeAllKeeps(EMPTY, ls);
    hide Inv, IndexCards, DatabaseCards;
    CardsAgree(ServeAll(EMPTY, ls), tenant);
  }

  /**
   Brand edits are not followed by an index call. When the two paths agree in full, they
   still do after a brand edit if and only if the edit leaves the name as it was or no
   product shown to the tenant's shoppers carries the brand.
   */
  lemma {:induction false} BrandEditDrifts(s: State, tenant: string, b: nat, name: Option<string>)
    requires IndexCards(s, tenant) == DatabaseCards(s, tenant)
    ensures var t := Step(s, EditBrand(b, name));
            IndexCards(t, tenant) == DatabaseCards(t, tenant) <==>
              || BrandName(t.brands, Some(b)) == BrandName(s.brands, Some(b))
              || forall id: nat :: Shown(s, tenant, id) && s.products[id].status == ACTIVE ==>
                   s.products[id].brand != Some(b)
  {
    hide PriceMin;
    var t := Step(s, EditBrand(b, name));
    assert t == s.(brands := t.brands);
    assert forall other :: other != Some(b) ==> BrandName(t.brands, other) == BrandName(s.brands, other);
    hide Step, BrandName;
    assert IndexCards(t, tenant) == IndexCards(s, tenant);
    if BrandName(t.brands, Some(b)) == BrandName(s.brands, Some(b)) {
      SameCards(s, t, tenant);
    } else if id: nat :| Shown(s, tenant, id) && s.products[id].status == ACTIVE && s.products[id].brand == Some(b) {
      var p := s.products[id];
      var before := Card(id, p.title, p.slug, PriceMin(s.variants, id), BrandName(s.brands, p.brand));
      assert before in DatabaseCards(s, tenant);
      assert before !in DatabaseCards(t, tenant);
    } else {
      SameCards(s, t, tenant);
    }
  }

  lemma {:induction false} SameCards(s: State, t: State, tenant: string)
    requires t == s.(brands := t.brands)
    requires forall id: nat :: Shown(s, tenant, id) && s.products[id].status == ACTIVE ==>
               BrandName(t.brands, s.products[id].brand) == BrandName(s.brands, s.products[id].brand)
    ensures DatabaseCards(s, tenant) == DatabaseCards(t, tenant)
  {
    hide PriceMin, BrandName;
    forall c ensures c in DatabaseCards(s, tenant) <==> c in DatabaseCards(t, tenant) {
      assert Shown(s, tenant, c.id) && s.products[c.id].status == ACTIVE ==>
        BrandName(t.brands, s.products[c.id].brand) == BrandName(s.brands, s.products[c.id].brand);
    }
  }

  /** A run that renames the brand of a synced product. */
  const RENAME := [EditBrand(0, Some("Old")), CreateProduct("t", "Tee", "tee", ACTIVE, Some(0)), Sync(0),
                   EditBrand(0, Some("New"))]

  lemma {:induction false} RenameRun()
    ensures var s := Run(EMPTY, RENAME);
            && s.products == [Product("t", "Tee", "tee", ACTIVE, Some(0), false)] && s.variants == [] && s.dirty == {}
            && s.brands == map[0 := "New"] && s.index == map[0 := Doc("t", "Tee", "tee", ACTIVE, None, Some("Old"))]
  {
    var tee := Product("t", "Tee", "tee", ACTIVE, Some(0), false);
    var s1 := EMPTY.(brands := map[0 := "Old"]);
    var s2 := s1.(products := [tee], dirty := {0});
    var s3 := s2.(index := map[0 := Doc("t", "Tee", "tee", ACTIVE, None, Some("Old"))], dirty := {});
    assert Step(EMPTY, RENAME[0]) == s1;
    assert Step(s1, RENAME[1]) == s2 by { assert [] + [tee] == [tee]; }
    assert Step(s2, RENAME[2]) == s3;
    assert Step(s3, RENAME[3]) == s3.(brands := map[0 := "New"]);
    RunFour(EMPTY, RENAME[0], RENAME[1], RENAME[2], RENAME[3]);
  }

  /** With nothing dirty, the two paths show different brand names. */
  lemma {:induction false} RenameDrifts()
    ensures var s := Run(EMPTY, RENAME);
            s.dirty == {} && IndexCards(s, "t") != DatabaseCards(s, "t")
  {
    RenameRun();
    hide Run, RENAME;
    var s := Run(EMPTY, RENAME);
    assert 0 in s.index && s.index[0].status == ACTIVE && s.index[0].tenant == "t";
    assert CardOf(s, 0) in IndexCards(s, "t");
    assert "Old"[0] != "New"[0];
    assert CardOf(s, 0) !in DatabaseCards(s, "t");
  }

  lemma {:induction false} RunCons(s: State, l: Label, ls: seq<Label>)
    ensures Run(s, [l] + ls) == Run(Step(s, l), ls)
  {
    assert ([l] + ls)[1..] == ls;
  }

  lemma {:induction false} RunFour(s: State, l1: Label, l2: Label, l3: Label, l4: Label)
    ensures Run(s, [l1, l2, l3, l4]) == Step(Step(Step(Step(s, l1), l2), l3), l4)
  {
    hide Step;
    assert [l1, l2, l3, l4] == [l1] + ([l2] + ([l3] + ([l4] + [])));
    RunCons(s, l1, [l2] + ([l3] + ([l4] + [])));
    RunCons(Step(s, l1), l2, [l3] + ([l4] + []));
    RunCons(Step(Step(s, l1), l2), l3, [l4] + []);
    RunCons(Step(Step(Step(s, l1), l2), l3), l4, []);
  }

  // ----- What a full reindex repairs ------------------------------------------------------

  /** An ACTIVE document of the tenant that does not belong to a live product of the tenant. */
  predicate Orphan(s: State, tenant: string, id: nat) {
    id in s.index && s.index[id].tenant == tenant && s.index[id].status == ACTIVE
    && !(LiveId(s, id) && s.products[id].tenant == tenant)
  }

  /** A live product of the tenant. */
  predicate Shown(s: State, tenant: string, id: nat) {
    LiveId(s, id) && s.products[id].tenant == tenant
  }

  /** The card of the product's document. */
  function CardOf(s: State, id: nat): Card
    requires id in s.index
  {
    Card(id, s.index[id].title, s.index[id].slug, s.index[id].priceMinCents, s.index[id].brandName)
  }

  /**
   From any state of the index, however stale, a full reindex makes both paths agree,
   brand names included, if and only if there is no orphan document: it writes every
   live product but deletes nothing.
   */
  lemma {:induction false} ReindexRepairs(s: State, tenant: string)
    ensures var t := ReindexTenant(s, tenant);
            IndexCards(t, tenant) == DatabaseCards(t, tenant)
            <==> forall id: nat :: id in s.index ==> !Orphan(s, tenant, id)
  {
    hide PriceMin, BrandName;
    var t := ReindexTenant(s, tenant);
    var fast, slow := IndexCards(t, tenant), DatabaseCards(t, tenant);
    forall id: nat ensures id in t.index <==> id in s.index || Shown(s, tenant, id)
                   ensures id in t.index ==> t.index[id] == if Shown(s, tenant, id) then ToDoc(s, id) else s.index[id] {
    }
    forall id: nat | Shown(s, tenant, id) && s.products[id].status == ACTIVE
      ensures CardOf(t, id) in fast && CardOf(t, id) in slow {
      assert id in t.index && t.index[id] == ToDoc(s, id);
    }
    if forall id: nat :: id in s.index ==> !Orphan(s, tenant, id) {
      forall c | c in fast ensures c in slow {
        assert c.id in t.index && (!Shown(s, tenant, c.id) ==> Orphan(s, tenant, c.id));
        assert c == CardOf(t, c.id);
      }
      forall c | c in slow ensures c in fast {
        assert Shown(s, tenant, c.id) && c == CardOf(t, c.id);
      }
    } else {
      var id: nat :| id in s.index && Orphan(s, tenant, id);
      var d := s.index[id];
      assert id in t.index && t.index[id] == d;
      assert Card(id, d.title, d.slug, d.priceMinCents, d.brandName) in fast;
    }
  }

  /** A product is removed while the index cannot be reached. */
  const LOST_REMOVAL := [CreateProduct("t", "Tee", "tee", ACTIVE, None), Sync(0), RemoveProduct(0), Reindex("t")]

  /** The document outlives its product, and the reindex leaves it: the shop still lists it. */
  lemma {:induction false} OrphanSurvives()
    ensures var s := Run(EMPTY, LOST_REMOVAL);
            Orphan(s, "t", 0) && IndexCards(s, "t") != DatabaseCards(s, "t")
  {
    var tee := Product("t", "Tee", "tee", ACTIVE, None, false);
    var doc := Doc("t", "Tee", "tee", ACTIVE, None, None);
    var s1 := EMPTY.(products := [tee], dirty := {0});
    var s2 := s1.(index := map[0 := doc], dirty := {});
    var s3 := s2.(products := [tee.(deleted := true)], dirty := {0});
    assert Step(EMPTY, LOST_REMOVAL[0]) == s1 by { assert [] + [tee] == [tee]; }
    assert Step(s1, LOST_REMOVAL[1]) == s2;
    assert Step(s2, LOST_REMOVAL[2]) == s3;
    RunFour(EMPTY, LOST_REMOVAL[0], LOST_REMOVAL[1], LOST_REMOVAL[2], LOST_REMOVAL[3]);
    hide Run;
    var s := Step(s3, LOST_REMOVAL[3]);
    assert LiveOf(s3, "t", 1) == {};
    assert s.index == map[0 := doc] && s.products == s3.products;
    hide Step;
    assert CardOf(s, 0) in IndexCards(s, "t");
    assert CardOf(s, 0) !in DatabaseCards(s, "t");
  }

  // ----- The price on the card --------------------------------------------------------------

  /** A live variant of the product at the price. */
  predicate IsOffer(v: Variant, product: nat, priceCents: int) {
    v.product == product && v.priceCents == priceCents && !v.deleted
  }

  /** The card's price is the least price of a live variant, and missing exactly when there is none. */
  lemma {:induction false} PriceMinLeast(variants: seq<Variant>, product: nat)
    ensures var m := PriceMin(variants, product);
            && (m == None <==>
                  forall v :: 0 <= v < |variants| ==> variants[v].product != product || variants[v].deleted)
            && (m.Some? ==>
                  && (exists v :: 0 <= v < |variants| && IsOffer(variants[v], product, m.value))
                  && (forall v :: 0 <= v < |variants| && variants[v].product == product && !variants[v].deleted ==>
                        m.value <= variants[v].priceCents))
  {
    if variants != [] {
      var n := |variants| - 1;
      PriceMinLeast(variants[..n], product);
      assert forall v :: 0 <= v < n ==> variants[..n][v] == variants[v];
      var m := PriceMin(variants[..n], product);
      if m.Some? {
        var v :| 0 <= v < n && IsOffer(variants[..n][v], product, m.value);
        assert IsOffer(variants[v], product, m.value);
      }
    }
  }
}
