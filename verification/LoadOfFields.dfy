/**
 `load_data` over the field values of the file: which goods it lists, which columns and texts they show,
 which files it accepts, and what it adds to the tables that shops share.  Nothing here is defined by the
 importer's own tests of its fields.
 */
module LoadOfFields {
  import opened Prelude
  import opened Tables
  import opened Programs
  import opened PriceView
  import opened LoadSuccess
  import opened LoadResult
  import opened ListingMeaning
  import opened LoadShared

  // ---------- The fields that count ----------

  /** Name, category, id, price and quantity: all given, no zero and no empty text. */
  predicate Sold(g: Good) {
    && g.name.Given? && g.name.value != "" && g.category.Given? && g.category.value != 0
    && g.id.Given? && g.id.value != 0 && g.price.Given? && g.price.value != 0
    && g.quantity.Given? && g.quantity.value != 0
  }

  ghost predicate SoldAt(gs: seq<Good>, k: int, ext: int) {
    0 <= k < |gs| && Sold(gs[k]) && gs[k].id == Given(ext)
  }

  /** The k-th good is sold under this id, and its j-th parameter has this name and a true value. */
  ghost predicate ShownAt(gs: seq<Good>, k: int, j: int, ext: int, name: string) {
    && SoldAt(gs, k, ext) && gs[k].parameters.Given? && 0 <= j < |gs[k].parameters.value|
    && var p := gs[k].parameters.value[j];
    p.0 == name && name != "" && p.1 != NullScalar && p.1.truthy
  }

  /** An entry with an id other than zero and a name that is not empty. */
  predicate Entry(e: CategoryEntry) {
    e.id.Given? && e.id.value != 0 && e.name.Given? && e.name.value != ""
  }

  ghost predicate EntryAt(es: seq<CategoryEntry>, j: int, id: Id) {
    0 <= j < |es| && Entry(es[j]) && es[j].id == Given(id)
  }

  lemma SoldIsListed(gs: seq<Good>, k: int, ext: int)
    ensures SoldAt(gs, k, ext) <==> Lists(gs, k, ext)
  {}

  lemma ShownIsMentioned(gs: seq<Good>, k: int, j: int, ext: int, name: string)
    ensures ShownAt(gs, k, j, ext, name) <==> Mentions(gs, k, j, ext, name)
  {
    SoldIsListed(gs, k, ext);
  }

  // ---------- The list that is published ----------

  /** A success has published `Listing` of goods that are all storable. */
  lemma PublishedListing(db: Db, f: PriceFile, user: Option<Id>)
    requires ValidCatalog(db.catalog) && Run(Begin(db), LoadProgram(f, user)).error.None?
    ensures f.goods.Given? && AllSound(f.goods.value)
    ensures var t := Run(Begin(db), LoadProgram(f, user)); PriceList(t.db.catalog, t.regs.shop) == Listing(f.goods.value)
  {
    LoadSucceedsExactly(db, f, user);
    LoadPublishesFile(db, f, user);
  }

  /** The ids. */
  lemma ListsSold(db: Db, f: PriceFile, user: Option<Id>, ext: int)
    requires ValidCatalog(db.catalog) && Run(Begin(db), LoadProgram(f, user)).error.None?
    ensures f.goods.Given?
    ensures var t := Run(Begin(db), LoadProgram(f, user));
      ext in PriceList(t.db.catalog, t.regs.shop) <==> exists k :: SoldAt(f.goods.value, k, ext)
  {
    PublishedListing(db, f, user);
    ListedIds(f.goods.value, ext);
    forall k ensures SoldAt(f.goods.value, k, ext) <==> Lists(f.goods.value, k, ext) { SoldIsListed(f.goods.value, k, ext); }
  }

  /** The columns, from the last good that is sold under the id. */
  lemma ListsColumns(db: Db, f: PriceFile, user: Option<Id>, k: int, ext: int)
    requires ValidCatalog(db.catalog) && Run(Begin(db), LoadProgram(f, user)).error.None?
    requires f.goods.Given? && SoldAt(f.goods.value, k, ext) && forall i | k < i :: !SoldAt(f.goods.value, i, ext)
    ensures var t, g := Run(Begin(db), LoadProgram(f, user)), f.goods.value[k]; var list := PriceList(t.db.catalog, t.regs.shop);
      && ext in list && list[ext].product == g.name.value
      && !g.model.Null? && list[ext].model == (if g.model.Given? then g.model.value else "")
      && list[ext].price == g.price.value && Given(list[ext].rrc) == g.rrc && list[ext].quantity == g.quantity.value
  {
    var gs := f.goods.value;
    PublishedListing(db, f, user);
    SoldIsListed(gs, k, ext);
    forall i | k < i ensures !Lists(gs, i, ext) { SoldIsListed(gs, i, ext); }
    assert Complete(gs[k]);
    ListedColumns(gs, k, ext);
  }

  /** A text: that of the last parameter with a true value, over all goods sold under the id. */
  lemma ListsText(db: Db, f: PriceFile, user: Option<Id>, k: int, j: int, ext: int, name: string)
    requires ValidCatalog(db.catalog) && Run(Begin(db), LoadProgram(f, user)).error.None?
    requires f.goods.Given? && ShownAt(f.goods.value, k, j, ext, name)
    requires forall k', j' | k < k' || (k == k' && j < j') :: !ShownAt(f.goods.value, k', j', ext, name)
    ensures var t := Run(Begin(db), LoadProgram(f, user)); var list := PriceList(t.db.catalog, t.regs.shop);
      && ext in list && name in list[ext].parameters
      && list[ext].parameters[name] == f.goods.value[k].parameters.value[j].1.text
  {
    var gs := f.goods.value;
    PublishedListing(db, f, user);
    ShownIsMentioned(gs, k, j, ext, name);
    forall k', j' | Later(k, j, k', j') ensures !Mentions(gs, k', j', ext, name) { ShownIsMentioned(gs, k', j', ext, name); }
    LastText(gs, k, j, ext, name);
  }

  /** No text: without such a parameter the name is not shown. */
  lemma ListsNoText(db: Db, f: PriceFile, user: Option<Id>, ext: int, name: string)
    requires ValidCatalog(db.catalog) && Run(Begin(db), LoadProgram(f, user)).error.None?
    requires f.goods.Given? && forall k, j :: !ShownAt(f.goods.value, k, j, ext, name)
    ensures var t := Run(Begin(db), LoadProgram(f, user)); var list := PriceList(t.db.catalog, t.regs.shop);
      ext in list ==> name !in list[ext].parameters
  {
    var gs := f.goods.value;
    PublishedListing(db, f, user);
    forall k, j ensures !Mentions(gs, k, j, ext, name) { ShownIsMentioned(gs, k, j, ext, name); }
    UnsetText(gs, ext, name);
  }

  // ---------- Which files are accepted ----------

  /** Everything that a row needs beyond being sold: no negative number, a recommended price, no null text or mapping. */
  predicate RowStorable(g: Good) {
    && g.id.Given? && 0 <= g.id.value && g.price.Given? && 0 <= g.price.value
    && g.quantity.Given? && 0 <= g.quantity.value && g.rrc.Given? && 0 <= g.rrc.value
    && !g.model.Null? && !g.parameters.Null?
  }

  ghost predicate ProductKnown(c: Catalog, name: string) {
    exists p :: p in c.products.rows && c.products.rows[p].name == name
  }

  /** The category exists, or some entry of the file brings it. */
  ghost predicate CategoryComes(c: Catalog, es: seq<CategoryEntry>, id: Id) {
    id in c.categories.rows || exists j :: EntryAt(es, j, id)
  }

  /** The product exists, or this good or one before it, sold under the same name, can create it. */
  ghost predicate ProductComes(c: Catalog, es: seq<CategoryEntry>, gs: seq<Good>, k: nat)
    requires k < |gs| && Sold(gs[k])
  {
    ProductKnown(c, gs[k].name.value) ||
    exists j | 0 <= j <= k && Sold(gs[j]) && gs[j].name == gs[k].name :: CategoryComes(c, es, gs[j].category.value)
  }

  ghost predicate ShopKnown(c: Catalog, name: string) {
    exists i :: i in c.shops.rows && c.shops.rows[i].name == name
  }

  ghost predicate ShopComes(c: Catalog, name: string, user: Option<Id>) {
    || ShopKnown(c, name)
    || user.None? || user.value == 0
    || (forall i :: i in c.shops.rows ==> c.shops.rows[i].owner != user)
  }

  lemma KnownIsProduct(c: Catalog, name: string)
    ensures ProductKnown(c, name) <==> HasProduct(c, name)
  {
    if HasProduct(c, name) {
      var p := Any(ProductsNamed(c.products.rows, name));
      assert p in c.products.rows && c.products.rows[p].name == name;
    }
    if p :| p in c.products.rows && c.products.rows[p].name == name { assert p in ProductsNamed(c.products.rows, name); }
  }

  lemma ComesIsAfter(c: Catalog, es: seq<CategoryEntry>, id: Id)
    ensures CategoryComes(c, es, id) <==> id in CategoriesAfter(c, es)
  {
    if j :| EntryAt(es, j, id) {
      assert es[j] in es && Accepted(es[j]);
    }
    if id in CategoriesAfter(c, es) && id !in c.categories.rows {
      var e :| e in es && Accepted(e) && e.id.value == id;
      var j :| 0 <= j < |es| && es[j] == e;
      assert EntryAt(es, j, id);
    }
  }

  lemma KnownIsNamed(c: Catalog, name: string)
    ensures ShopKnown(c, name) <==> ShopsNamed(c.shops.rows, name) != {}
  {
    var named := ShopsNamed(c.shops.rows, name);
    if named != {} {
      var i := Any(named);
      assert i in c.shops.rows && c.shops.rows[i].name == name;
    }
    if i :| i in c.shops.rows && c.shops.rows[i].name == name { assert i in named; }
  }

  lemma ComesIsOpened(c: Catalog, name: string, user: Option<Id>)
    ensures ShopComes(c, name, user) <==> ShopOpens(c, name, TruthyUser(user))
  {
    KnownIsNamed(c, name);
    if user.Some? {
      var owned := ShopsOwnedBy(c.shops.rows, user.value);
      if owned != {} {
        var i := Any(owned);
        assert i in c.shops.rows && c.shops.rows[i].owner == user;
      }
      if i :| i in c.shops.rows && c.shops.rows[i].owner == user { assert i in owned; }
    }
  }

  lemma ComesIsPlaced(c: Catalog, es: seq<CategoryEntry>, gs: seq<Good>, k: nat)
    requires k < |gs| && Sold(gs[k]) && Complete(gs[k])
    ensures ProductComes(c, es, gs, k) <==> Placed(c, CategoriesAfter(c, es), gs, k)
  {
    KnownIsProduct(c, gs[k].name.value);
    forall j | 0 <= j <= k && Sold(gs[j]) { ComesIsAfter(c, es, gs[j].category.value); }
    forall j | 0 <= j <= k
      ensures Opens(CategoriesAfter(c, es), gs[j], gs[k].name) <==>
        Sold(gs[j]) && gs[j].name == gs[k].name && CategoryComes(c, es, gs[j].category.value)
    {
      if Sold(gs[j]) { ComesIsAfter(c, es, gs[j].category.value); }
    }
  }

  /** `load_data` answers Status True for these files and stores, and for no others. */
  lemma AcceptsExactly(db: Db, f: PriceFile, user: Option<Id>)
    requires ValidCatalog(db.catalog)
    ensures Run(Begin(db), LoadProgram(f, user)).error.None? <==>
      && f.shop.Given? && f.categories.Given? && f.goods.Given? && ShopComes(db.catalog, f.shop.value, user)
      && forall k | 0 <= k < |f.goods.value| && Sold(f.goods.value[k]) ::
           RowStorable(f.goods.value[k]) && ProductComes(db.catalog, f.categories.value, f.goods.value, k)
  {
    LoadSucceedsExactly(db, f, user);
    if f.shop.Given? && f.categories.Given? && f.goods.Given? {
      ComesIsOpened(db.catalog, f.shop.value, user);
      forall k | 0 <= k < |f.goods.value|
        ensures Sold(f.goods.value[k]) <==> Complete(f.goods.value[k])
        ensures RowStorable(f.goods.value[k]) <==> Sound(f.goods.value[k])
        ensures Sold(f.goods.value[k]) ==>
          (ProductComes(db.catalog, f.categories.value, f.goods.value, k) <==>
            Placed(db.catalog, CategoriesAfter(db.catalog, f.categories.value), f.goods.value, k))
      {
        if Sold(f.goods.value[k]) { ComesIsPlaced(db.catalog, f.categories.value, f.goods.value, k); }
      }
    }
  }

  // ---------- The shared tables ----------

  lemma {:induction false} FirstEntryNames(es: seq<CategoryEntry>, j: int, id: Id)
    requires EntryAt(es, j, id) && forall i | i < j :: !EntryAt(es, i, id)
    ensures FirstName(es, id) == Some(es[j].name.value)
    decreases |es|
  {
    if j > 0 {
      assert !EntryAt(es, 0, id);
      forall i | i < j - 1 ensures !EntryAt(es[1..], i, id) { assert EntryAt(es[1..], i, id) ==> EntryAt(es, i + 1, id); }
      FirstEntryNames(es[1..], j - 1, id);
    }
  }

  lemma {:induction false} FirstSoldPlaces(gs: seq<Good>, k: int, name: string)
    requires 0 <= k < |gs| && Sold(gs[k]) && gs[k].name == Given(name)
    requires forall i | 0 <= i < k && Sold(gs[i]) :: gs[i].name != Given(name)
    ensures FirstCategory(gs, name) == Some(gs[k].category.value)
    decreases |gs|
  {
    if k > 0 {
      assert !(Sold(gs[0]) && gs[0].name == Given(name));
      FirstSoldPlaces(gs[1..], k - 1, name);
    }
  }

  /** Shop row, links and the set of categories. */
  lemma AddsShopAndLinks(db: Db, f: PriceFile, user: Option<Id>)
    requires ValidCatalog(db.catalog) && Run(Begin(db), LoadProgram(f, user)).error.None?
    ensures f.shop.Given? && f.categories.Given?
    ensures var c, t := db.catalog, Run(Begin(db), LoadProgram(f, user)); var d := t.db.catalog;
      && d.shops == (if ShopKnown(c, f.shop.value) then c.shops
                     else Table(c.shops.rows[c.shops.next := Shop(f.shop.value, if user == Some(0) then None else user)], c.shops.next + 1))
      && (forall x, s :: (x, s) in d.links <==> (x, s) in c.links || (s == t.regs.shop && exists j :: EntryAt(f.categories.value, j, x)))
      && (forall x :: x in d.categories.rows <==> CategoryComes(c, f.categories.value, x))
  {
    LoadAddsExactly(db, f, user);
    var c, t, es := db.catalog, Run(Begin(db), LoadProgram(f, user)), f.categories.value;
    KnownIsNamed(c, f.shop.value);
    forall x, s ensures (x, s) in ListedPairs(es, t.regs.shop) <==> s == t.regs.shop && exists j :: EntryAt(es, j, x) {
      PairIsEntry(es, t.regs.shop, x, s);
    }
    forall x ensures x in t.db.catalog.categories.rows.Keys <==> CategoryComes(c, es, x) { ComesIsAfter(c, es, x); }
  }

  lemma PairIsEntry(es: seq<CategoryEntry>, shop: Id, x: Id, s: Id)
    ensures (x, s) in ListedPairs(es, shop) <==> s == shop && exists j :: EntryAt(es, j, x)
  {
    if j :| EntryAt(es, j, x) {
      assert es[j] in es && Accepted(es[j]);
    }
    if (x, s) in ListedPairs(es, shop) {
      var e :| e in es && Accepted(e) && (e.id.value, shop) == (x, s);
      var j :| 0 <= j < |es| && es[j] == e;
      assert EntryAt(es, j, x);
    }
  }

  /** Old categories stay; a new one has the name of the first entry that brings it. */
  lemma AddsCategory(db: Db, f: PriceFile, user: Option<Id>, j: int, id: Id)
    requires ValidCatalog(db.catalog) && Run(Begin(db), LoadProgram(f, user)).error.None?
    requires f.categories.Given? && EntryAt(f.categories.value, j, id) && forall i | i < j :: !EntryAt(f.categories.value, i, id)
    ensures var c, d := db.catalog, Run(Begin(db), LoadProgram(f, user)).db.catalog;
      && id in d.categories.rows
      && d.categories.rows[id].name == if id in c.categories.rows then c.categories.rows[id].name else f.categories.value[j].name.value
  {
    LoadAddsExactly(db, f, user);
    FirstEntryNames(f.categories.value, j, id);
    ComesIsAfter(db.catalog, f.categories.value, id);
    assert id in Run(Begin(db), LoadProgram(f, user)).db.catalog.categories.rows.Keys;
  }

  /** Old products stay; a new one is in the category of the first good sold under its name. */
  lemma AddsProduct(db: Db, f: PriceFile, user: Option<Id>, k: int)
    requires ValidCatalog(db.catalog) && Run(Begin(db), LoadProgram(f, user)).error.None?
    requires f.goods.Given? && 0 <= k < |f.goods.value| && Sold(f.goods.value[k])
    requires forall i | 0 <= i < k && Sold(f.goods.value[i]) :: f.goods.value[i].name != f.goods.value[k].name
    ensures var c, d, g := db.catalog, Run(Begin(db), LoadProgram(f, user)).db.catalog, f.goods.value[k];
      && (forall p :: p in c.products.rows ==> p in d.products.rows && d.products.rows[p] == c.products.rows[p])
      && (!ProductKnown(c, g.name.value) ==> exists p :: p in d.products.rows && d.products.rows[p] == Product(g.name.value, g.category.value))
  {
    LoadAddsExactly(db, f, user);
    var c, d, gs := db.catalog, Run(Begin(db), LoadProgram(f, user)).db.catalog, f.goods.value;
    var n := gs[k].name.value;
    KnownIsProduct(c, n);
    FirstSoldPlaces(gs, k, n);
    assert Names(gs[k], n);
    var p := Any(ProductsNamed(d.products.rows, n));
    if !ProductKnown(c, n) {
      assert p !in c.products.rows;
      assert d.products.rows[p] == Product(n, gs[k].category.value);
    }
  }

  /** Every new product is that of a good that is sold under a name unknown before. */
  lemma AddsNoOtherProduct(db: Db, f: PriceFile, user: Option<Id>, p: Id)
    requires ValidCatalog(db.catalog) && Run(Begin(db), LoadProgram(f, user)).error.None?
    requires p in Run(Begin(db), LoadProgram(f, user)).db.catalog.products.rows && p !in db.catalog.products.rows
    ensures f.goods.Given?
    ensures var row := Run(Begin(db), LoadProgram(f, user)).db.catalog.products.rows[p];
      !ProductKnown(db.catalog, row.name) && exists k :: 0 <= k < |f.goods.value| && Sold(f.goods.value[k]) && f.goods.value[k].name == Given(row.name)
  {
    LoadAddsExactly(db, f, user);
    var d := Run(Begin(db), LoadProgram(f, user)).db.catalog;
    KnownIsProduct(db.catalog, d.products.rows[p].name);
    assert p in ProductsNamed(d.products.rows, d.products.rows[p].name);
    var j :| 0 <= j < |f.goods.value| && Names(f.goods.value[j], d.products.rows[p].name);
    assert Sold(f.goods.value[j]);
  }
}
