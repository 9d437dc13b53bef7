/**
 The tables that shops share: which shop row, links, categories and products a successful `load_data`
 adds, entry by entry of the file, and that it changes none that was there.
 */
module LoadShared {
  import opened Prelude
  import opened Tables
  import opened Orm
  import opened Programs
  import opened LoadSuccess

  /** The name under which a category id is first accepted. */
  function FirstName(es: seq<CategoryEntry>, id: Id): Option<string> {
    if es == [] then None
    else if Accepted(es[0]) && es[0].id.value == id then Some(es[0].name.value)
    else FirstName(es[1..], id)
  }

  /** The category of the first complete good of a name. */
  function FirstCategory(gs: seq<Good>, name: string): Option<Id> {
    if gs == [] then None
    else if Names(gs[0], name) then Some(gs[0].category.value)
    else FirstCategory(gs[1..], name)
  }

  ghost function ListedPairs(es: seq<CategoryEntry>, shop: Id): set<(Id, Id)> {
    set e | e in es && Accepted(e) :: (e.id.value, shop)
  }

  /** Old categories as they were; new ones under the first accepted name. */
  ghost predicate CategoriesAdded(c: Catalog, d: Catalog, es: seq<CategoryEntry>) {
    && (forall k :: k in c.categories.rows ==> k in d.categories.rows && d.categories.rows[k] == c.categories.rows[k])
    && (forall k :: k in d.categories.rows && k !in c.categories.rows ==>
          FirstName(es, k) == Some(d.categories.rows[k].name))
  }

  /** Old products as they were; new ones under the category of the first complete good of their name. */
  ghost predicate ProductsAdded(c: Catalog, d: Catalog, gs: seq<Good>) {
    && (forall p :: p in c.products.rows ==> p in d.products.rows && d.products.rows[p] == c.products.rows[p])
    && (forall p :: p in d.products.rows && p !in c.products.rows ==>
          !HasProduct(c, d.products.rows[p].name) &&
          FirstCategory(gs, d.products.rows[p].name) == Some(d.products.rows[p].category))
  }

  lemma CategoriesAddedFirst(c: Catalog, m: Catalog, d: Catalog, es: seq<CategoryEntry>)
    requires es != [] && Accepted(es[0]) && CategoriesAdded(m, d, es[1..])
    requires m.categories.rows == c.categories.rows[es[0].id.value :=
      if es[0].id.value in c.categories.rows then c.categories.rows[es[0].id.value] else Category(es[0].name.value)]
    ensures CategoriesAdded(c, d, es)
  {}

  lemma ListedFirst(es: seq<CategoryEntry>, shop: Id)
    requires es != []
    ensures ListedPairs(es, shop) ==
      (if Accepted(es[0]) then {(es[0].id.value, shop)} else {}) + ListedPairs(es[1..], shop)
  {
    assert es == [es[0]] + es[1..];
  }

  lemma {:induction false} CategoriesExactly(s: Session, es: seq<CategoryEntry>)
    requires s.error.None? && ValidCatalog(s.db.catalog) && s.regs.shop in s.db.catalog.shops.rows
    ensures var c, d := s.db.catalog, Run(s, LoadCategories(es)).db.catalog;
      d.links == c.links + ListedPairs(es, s.regs.shop) && CategoriesAdded(c, d, es)
    decreases |es|
  {
    if es != [] {
      var e := es[0];
      ListedFirst(es, s.regs.shop);
      if Accepted(e) {
        var two := [OpenCategory(Some(e.id.value), Some(e.name.value)), LinkCategory];
        EntryExactly(s, e, LoadCategories(es[1..]));
        assert LoadCategories(es) == two + LoadCategories(es[1..]);
        var t := Run(s, two);
        CategoriesExactly(t, es[1..]);
        CategoriesAddedFirst(s.db.catalog, t.db.catalog, Run(s, LoadCategories(es)).db.catalog, es);
      } else {
        assert LoadCategories(es) == LoadCategories(es[1..]);
        CategoriesExactly(s, es[1..]);
        var c, d := s.db.catalog, Run(s, LoadCategories(es)).db.catalog;
        assert CategoriesAdded(c, d, es[1..]);
        assert forall k :: FirstName(es, k) == FirstName(es[1..], k);
      }
    }
  }

  lemma {:induction false} GoodsExactly(s: Session, gs: seq<Good>)
    requires s.error.None? && ValidCatalog(s.db.catalog) && s.regs.shop in s.db.catalog.shops.rows
    requires Run(s, LoadGoods(gs)).error.None?
    ensures ProductsAdded(s.db.catalog, Run(s, LoadGoods(gs)).db.catalog, gs)
    decreases |gs|
  {
    if gs != [] {
      var g, rest := gs[0], gs[1..];
      RunAppend(s, LoadGood(g), LoadGoods(rest));
      if Complete(g) {
        GoodRuns(s, g);
        var u := Run(s, LoadGood(g));
        GoodsExactly(u, rest);
        AddedFirst(s.db.catalog, u.db.catalog, Run(u, LoadGoods(rest)).db.catalog, gs);
      } else {
        GoodsExactly(s, rest);
      }
    }
  }

  lemma AddedFirst(c: Catalog, m: Catalog, d: Catalog, gs: seq<Good>)
    requires gs != [] && Complete(gs[0]) && c.products.Fresh()
    requires m.products == ProductsWith(c, gs[0].name.value, gs[0].category.value) && ProductsAdded(m, d, gs[1..])
    requires forall n :: HasProduct(m, n) <==> HasProduct(c, n) || n == gs[0].name.value
    ensures ProductsAdded(c, d, gs)
  {}

  lemma {:induction false} KeepsShared(s: Session, p: seq<Stmt>)
    requires LoadRest(p) && forall st :: st in p ==> !st.OpenCategory? && !st.LinkCategory?
    ensures var c, d := s.db.catalog, Run(s, p).db.catalog;
      d.shops == c.shops && d.links == c.links && d.categories == c.categories && Run(s, p).regs.shop == s.regs.shop
    decreases |p|
  {
    if p != [] && s.error.None? {
      assert p[0] in p;
      KeepsShared(Exec(s, p[0]), p[1..]);
    }
  }

  lemma {:induction false} GoodsLeaveShared(gs: seq<Good>)
    ensures forall st :: st in LoadGoods(gs) ==> !st.OpenCategory? && !st.LinkCategory?
    decreases |gs|
  {
    if gs != [] {
      ParametersLeaveShared(OrEmpty(gs[0].parameters));
      GoodsLeaveShared(gs[1..]);
    }
  }

  lemma {:induction false} ParametersLeaveShared(ps: seq<(string, Scalar)>)
    ensures forall st :: st in LoadParameters(ps) ==> !st.OpenCategory? && !st.LinkCategory?
    decreases |ps|
  {
    if ps != [] {
      ParametersLeaveShared(ps[1..]);
    }
  }

  /** The head, row by row. */
  lemma HeadExactly(db: Db, f: PriceFile, user: Option<Id>)
    requires ValidCatalog(db.catalog) && f.shop.Given? && f.categories.Given? && Run(Begin(db), LoadHead(f, user)).error.None?
    ensures var c, t := db.catalog, Run(Begin(db), LoadHead(f, user)); var d := t.db.catalog;
      && d.shops == (if ShopsNamed(c.shops.rows, f.shop.value) != {} then c.shops
                     else c.shops.Insert(Shop(f.shop.value, TruthyUser(user))))
      && d.links == c.links + ListedPairs(f.categories.value, t.regs.shop)
      && CategoriesAdded(c, d, f.categories.value) && d.products == c.products
  {
    var s, one, es := Begin(db), OpenShop(f.shop.Get(), TruthyUser(user)), f.categories.value;
    assert LoadHead(f, user) == [one] + (LoadCategories(es) + [ClearOffers]);
    RunStep(s, one, LoadCategories(es) + [ClearOffers]);
    OneShop(db.catalog, f.shop.value);
    var s1 := Exec(s, one);
    ShopKeeps(db.catalog, one.shopName, one.owner);
    if s1.db.catalog == db.catalog { assert s1.regs.shop in ShopsNamed(db.catalog.shops.rows, f.shop.value); }
    RunAppend(s1, LoadCategories(es), [ClearOffers]);
    CategoriesRun(s1, es);
    CategoriesExactly(s1, es);
    var s2 := Run(s1, LoadCategories(es));
    RunStep(s2, ClearOffers, []);
    assert [ClearOffers] + [] == [ClearOffers];
  }

  /**
   A successful import: the shop row, the links, the categories and the products, exactly.  An accepted
   category and the product of a complete good are there afterwards, nothing else is new, and nothing
   that was there has changed.
   */
  lemma LoadAddsExactly(db: Db, f: PriceFile, user: Option<Id>)
    requires ValidCatalog(db.catalog) && Run(Begin(db), LoadProgram(f, user)).error.None?
    ensures f.shop.Given? && f.categories.Given? && f.goods.Given?
    ensures var c, t := db.catalog, Run(Begin(db), LoadProgram(f, user)); var d := t.db.catalog;
      && ValidCatalog(d)
      && d.shops == (if ShopsNamed(c.shops.rows, f.shop.value) != {} then c.shops
                     else c.shops.Insert(Shop(f.shop.value, TruthyUser(user))))
      && d.links == c.links + ListedPairs(f.categories.value, t.regs.shop)
      && d.categories.rows.Keys == CategoriesAfter(c, f.categories.value)
      && (forall n :: HasProduct(d, n) <==> HasProduct(c, n) || exists j :: 0 <= j < |f.goods.value| && Names(f.goods.value[j], n))
      && CategoriesAdded(c, d, f.categories.value) && ProductsAdded(c, d, f.goods.value)
  {
    LoadSucceedsExactly(db, f, user);
    var s, gs := Begin(db), f.goods.value;
    RunAppend(s, LoadHead(f, user), LoadTail(f));
    var u := Run(s, LoadHead(f, user));
    HeadRuns(db, f, user);
    HeadExactly(db, f, user);
    LoadTailRest(f);
    GoodsLeaveShared(gs);
    KeepsShared(u, LoadTail(f));
    GoodsExactly(u, gs);
    GoodsRun(u, gs);
    var d := Run(u, LoadTail(f)).db.catalog;
    forall n ensures HasProduct(d, n) <==> HasProduct(db.catalog, n) || exists j :: 0 <= j < |gs| && Names(gs[j], n) {
      assert HasProduct(u.db.catalog, n) <==> HasProduct(db.catalog, n);
    }
  }
}
