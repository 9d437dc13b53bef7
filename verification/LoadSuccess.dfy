/**
 When `load_data` succeeds: an exact condition on the store and the file that can be evaluated before
 the import starts, although the import itself creates the categories and products it later looks up.
 */
module LoadSuccess {
  import opened Prelude
  import opened Tables
  import opened Orm
  import opened Programs

  // ---------- The condition ----------

  ghost predicate HasProduct(c: Catalog, name: string) {
    ProductsNamed(c.products.rows, name) != {}
  }

  /** Columns that NOT NULL, the positive-integer checks and `parameters.items()` accept. */
  predicate Sound(g: Good) {
    && g.model != Null && g.rrc.Given? && g.parameters != Null
    && g.id.Given? && g.price.Given? && g.quantity.Given?
    && 0 <= g.id.value && 0 <= g.price.value && 0 <= g.rrc.value && 0 <= g.quantity.value
  }

  /** The product of the k-th good exists already, or an entry no later than k can create it. */
  ghost predicate Placed(c: Catalog, categories: set<Id>, gs: seq<Good>, k: nat)
    requires k < |gs| && Complete(gs[k])
  {
    HasProduct(c, gs[k].name.value) || exists j :: 0 <= j <= k && Opens(categories, gs[j], gs[k].name)
  }

  predicate Opens(categories: set<Id>, g: Good, name: Field<string>) {
    Complete(g) && g.name == name && g.category.value in categories
  }

  predicate Accepted(e: CategoryEntry) {
    TruthyInt(e.id) && TruthyText(e.name)
  }

  ghost function CategoriesAfter(c: Catalog, es: seq<CategoryEntry>): set<Id> {
    c.categories.rows.Keys + set e | e in es && Accepted(e) :: e.id.value
  }

  /** The shop exists, or may be created for this owner. */
  ghost predicate ShopOpens(c: Catalog, name: string, owner: Option<Id>) {
    ShopsNamed(c.shops.rows, name) != {} || owner.None? || ShopsOwnedBy(c.shops.rows, owner.value) == {}
  }

  ghost predicate Importable(c: Catalog, f: PriceFile, user: Option<Id>) {
    && f.shop.Given? && f.categories.Given? && f.goods.Given?
    && ShopOpens(c, f.shop.value, TruthyUser(user))
    && forall k :: 0 <= k < |f.goods.value| && Complete(f.goods.value[k]) ==>
         Sound(f.goods.value[k]) && Placed(c, CategoriesAfter(c, f.categories.value), f.goods.value, k)
  }

  // ---------- Single statements ----------

  lemma ParameterRuns(s: Session, name: string)
    requires s.error.None? && ValidCatalog(s.db.catalog)
    ensures var t := Exec(s, OpenParameter(name));
      && t.error.None? && ValidCatalog(t.db.catalog)
      && t.regs.parameter in t.db.catalog.parameters.rows
      && t == s.(db := s.db.(catalog := s.db.catalog.(parameters := t.db.catalog.parameters)),
              regs := s.regs.(parameter := t.regs.parameter))
  {
    OneParameter(s.db.catalog, name);
    ParameterKeeps(s.db.catalog, name);
  }

  lemma ValueRuns(s: Session, text: string)
    requires s.error.None? && ValidCatalog(s.db.catalog)
    requires s.regs.info in s.db.catalog.infos.rows && s.regs.parameter in s.db.catalog.parameters.rows
    ensures var t := Exec(s, PutValue(text));
      && t.error.None? && ValidCatalog(t.db.catalog)
      && t == s.(db := s.db.(catalog := s.db.catalog.(values := t.db.catalog.values)))
  {
    OneValue(s.db.catalog, s.regs.info, s.regs.parameter);
    SaveValueKeeps(s.db.catalog, s.regs.info, s.regs.parameter, text);
  }

  /** A known product keeps its category; a new one gets the good's. */
  ghost function ProductsWith(c: Catalog, name: string, category: Id): Table<Product> {
    if HasProduct(c, name) then c.products else c.products.Insert(Product(name, category))
  }

  lemma ProductRuns(s: Session, name: string, category: int)
    requires s.error.None? && ValidCatalog(s.db.catalog)
    ensures var c, t := s.db.catalog, Exec(s, OpenProduct(Some(name), Some(category)));
      && (t.error.None? <==> HasProduct(c, name) || category in c.categories.rows)
      && (t.error.None? ==>
            && ValidCatalog(t.db.catalog) && t.regs.product in t.db.catalog.products.rows
            && t == s.(db := s.db.(catalog := c.(products := t.db.catalog.products)), regs := s.regs.(product := t.regs.product))
            && t.db.catalog.products == ProductsWith(c, name, category)
            && forall n :: HasProduct(t.db.catalog, n) <==> HasProduct(c, n) || n == name)
  {
    var c, t := s.db.catalog, Exec(s, OpenProduct(Some(name), Some(category)));
    OneProduct(c, name);
    if t.error.None? {
      ProductKeeps(c, Some(name), Some(category));
      var rows, rows' := c.products.rows, t.db.catalog.products.rows;
      assert t.regs.product in ProductsNamed(rows', name) by {
        if rows == rows' { assert t.regs.product in ProductsNamed(rows, name); }
      }
      forall n | n != name ensures ProductsNamed(rows, n) == ProductsNamed(rows', n) {
        SameSet(ProductsNamed(rows, n), ProductsNamed(rows', n));
      }
    }
  }

  lemma OfferRuns(s: Session, g: Good)
    requires s.error.None? && ValidCatalog(s.db.catalog) && Complete(g)
    requires s.regs.shop in s.db.catalog.shops.rows && s.regs.product in s.db.catalog.products.rows
    ensures var t := Exec(s, PutOffer(g.id.value, g.model.GetOr(""), g.price.value, g.rrc.Get(), g.quantity.value));
      && (t.error.None? <==> Sound(g.(parameters := Missing)))
      && (t.error.None? ==>
            && ValidCatalog(t.db.catalog) && t.regs.info in t.db.catalog.infos.rows
            && t == s.(db := s.db.(catalog := s.db.catalog.(infos := t.db.catalog.infos)), regs := s.regs.(info := t.regs.info)))
  {
    if g.model != Null && g.rrc.Given? {
      var row := Info(g.id.value, s.regs.shop, s.regs.product, g.model.GetOr("").value, g.price.value, g.rrc.value, g.quantity.value);
      var c := s.db.catalog;
      OneOffer(c, row.shop, row.ext);
      if SaveOffer(c, row).Ok? {
        SaveOfferKeeps(c, row);
        if Lookup(InfosAt(c.infos.rows, row.shop, row.ext)).One? {
          assert SaveOffer(c, row).id in InfosAt(c.infos.rows, row.shop, row.ext);
        }
      }
    }
  }

  // ---------- One good ----------

  lemma {:induction false} ParametersRun(s: Session, ps: seq<(string, Scalar)>)
    requires s.error.None? && ValidCatalog(s.db.catalog) && s.regs.info in s.db.catalog.infos.rows
    ensures var c, t := s.db.catalog, Run(s, LoadParameters(ps));
      && t.error.None? && ValidCatalog(t.db.catalog)
      && t == s.(db := s.db.(catalog := c.(parameters := t.db.catalog.parameters, values := t.db.catalog.values)),
              regs := s.regs.(parameter := t.regs.parameter))
    decreases |ps|
  {
    if ps != [] {
      if ps[0].0 != "" && ps[0].1.Truthy() {
        var one, two := OpenParameter(ps[0].0), PutValue(ps[0].1.text);
        ParameterRuns(s, ps[0].0);
        ValueRuns(Exec(s, one), ps[0].1.text);
        var rest := LoadParameters(ps[1..]);
        assert LoadParameters(ps) == [one] + ([two] + rest);
        RunStep(s, one, [two] + rest);
        RunStep(Exec(s, one), two, rest);
        ParametersRun(Exec(Exec(s, one), two), ps[1..]);
      } else {
        assert LoadParameters(ps) == LoadParameters(ps[1..]);
        ParametersRun(s, ps[1..]);
      }
    }
  }

  lemma GoodRuns(s: Session, g: Good)
    requires s.error.None? && ValidCatalog(s.db.catalog) && Complete(g) && s.regs.shop in s.db.catalog.shops.rows
    ensures var c, t := s.db.catalog, Run(s, LoadGood(g)); var d := t.db.catalog;
      && (t.error.None? <==> Sound(g) && (HasProduct(c, g.name.value) || g.category.value in c.categories.rows))
      && (t.error.None? ==>
            && ValidCatalog(d) && d.shops == c.shops && d.categories == c.categories && t.regs.shop == s.regs.shop
            && d.products == ProductsWith(c, g.name.value, g.category.value)
            && forall n :: HasProduct(d, n) <==> HasProduct(c, n) || n == g.name.value)
  {
    var one := OpenProduct(Some(g.name.value), Some(g.category.value));
    var two := PutOffer(g.id.value, g.model.GetOr(""), g.price.value, g.rrc.Get(), g.quantity.value);
    var rest := LoadParameterField(g.parameters);
    assert LoadGood(g) == [one] + ([two] + rest);
    ProductRuns(s, g.name.value, g.category.value);
    RunStep(s, one, [two] + rest);
    var s1 := Exec(s, one);
    if s1.error.None? {
      OfferRuns(s1, g);
      RunStep(s1, two, rest);
      var s2 := Exec(s1, two);
      if s2.error.None? && g.parameters.Given? {
        ParametersRun(s2, g.parameters.value);
      }
    }
  }

  // ---------- All goods ----------

  lemma {:induction false} LoadGoodsAppend(gs: seq<Good>, hs: seq<Good>)
    ensures LoadGoods(gs + hs) == LoadGoods(gs) + LoadGoods(hs)
    decreases |gs|
  {
    if gs == [] {
      assert gs + hs == hs;
    } else {
      assert (gs + hs)[1..] == gs[1..] + hs;
      LoadGoodsAppend(gs[1..], hs);
    }
  }

  lemma LoadGoodsSnoc(gs: seq<Good>)
    requires gs != []
    ensures LoadGoods(gs) == LoadGoods(gs[..|gs|-1]) + LoadGood(gs[|gs|-1])
  {
    var last := [gs[|gs|-1]];
    assert gs == gs[..|gs|-1] + last;
    LoadGoodsAppend(gs[..|gs|-1], last);
    assert LoadGoods(last) == LoadGood(gs[|gs|-1]);
  }

  predicate Names(g: Good, name: string) {
    Complete(g) && g.name.value == name
  }

  ghost predicate AllPlaced(c: Catalog, categories: set<Id>, gs: seq<Good>) {
    forall k :: 0 <= k < |gs| && Complete(gs[k]) ==> Sound(gs[k]) && Placed(c, categories, gs, k)
  }

  lemma PlacedInPrefix(c: Catalog, categories: set<Id>, gs: seq<Good>, m: nat)
    requires m <= |gs|
    ensures forall k :: 0 <= k < m && Complete(gs[k]) ==> (Placed(c, categories, gs[..m], k) <==> Placed(c, categories, gs, k))
  {
    forall k | 0 <= k < m && Complete(gs[k])
      ensures Placed(c, categories, gs[..m], k) <==> Placed(c, categories, gs, k)
    {
      assert forall j :: 0 <= j <= k ==> gs[..m][j] == gs[j];
    }
  }

  /** The last good is placed exactly when its product is there once all earlier goods are in. */
  lemma LastPlaced(c: Catalog, categories: set<Id>, gs: seq<Good>)
    requires gs != [] && Complete(gs[|gs|-1]) && AllPlaced(c, categories, gs[..|gs|-1])
    ensures var m := |gs| - 1;
      Placed(c, categories, gs, m) <==>
        || HasProduct(c, gs[m].name.value)
        || (exists j :: 0 <= j < m && Names(gs[j], gs[m].name.value))
        || gs[m].category.value in categories
  {
    var m := |gs| - 1;
    PlacedInPrefix(c, categories, gs, m);
    if j :| 0 <= j < m && Names(gs[j], gs[m].name.value) {
      assert gs[..m][j] == gs[j];
      assert Placed(c, categories, gs[..m], j);
      assert Placed(c, categories, gs, j);
    }
    if gs[m].category.value in categories {
      assert Opens(categories, gs[m], gs[m].name);
    }
    if Placed(c, categories, gs, m) && !HasProduct(c, gs[m].name.value) {
      var j :| 0 <= j <= m && Opens(categories, gs[j], gs[m].name);
      assert j < m ==> Names(gs[j], gs[m].name.value);
    }
  }

  lemma GoodsSnocCondition(c: Catalog, categories: set<Id>, gs: seq<Good>)
    requires gs != []
    ensures var m := |gs| - 1;
      AllPlaced(c, categories, gs) <==>
        AllPlaced(c, categories, gs[..m]) && (Complete(gs[m]) ==> Sound(gs[m]) && Placed(c, categories, gs, m))
  {
    var m := |gs| - 1;
    PlacedInPrefix(c, categories, gs, m);
    assert forall j :: 0 <= j < m ==> gs[..m][j] == gs[j];
  }

  /** What the goods loop has done, seen through the conditions of later goods. */
  ghost predicate GoodsDone(s: Session, t: Session, gs: seq<Good>) {
    var c, d := s.db.catalog, t.db.catalog;
    && ValidCatalog(d) && d.shops == c.shops && d.categories == c.categories && t.regs.shop == s.regs.shop
    && forall n :: HasProduct(d, n) <==> HasProduct(c, n) || exists j :: 0 <= j < |gs| && Names(gs[j], n)
  }

  lemma GoodsDoneStep(s: Session, u: Session, gs: seq<Good>)
    requires gs != [] && GoodsDone(s, u, gs[..|gs|-1])
    requires u.error.None? && s.regs.shop in s.db.catalog.shops.rows
    ensures var m, t := |gs| - 1, Run(u, LoadGood(gs[|gs|-1])); var c := s.db.catalog;
      && (t.error.None? <==>
            !Complete(gs[m]) ||
            (Sound(gs[m]) &&
             (HasProduct(c, gs[m].name.value) || (exists j :: 0 <= j < m && Names(gs[j], gs[m].name.value)) ||
              gs[m].category.value in c.categories.rows.Keys)))
      && (t.error.None? ==> GoodsDone(s, t, gs))
  {
    var m := |gs| - 1;
    var t := Run(u, LoadGood(gs[m]));
    assert forall j :: 0 <= j < m ==> gs[..m][j] == gs[j];
    if Complete(gs[m]) {
      GoodRuns(u, gs[m]);
    }
    if t.error.None? {
      forall n ensures HasProduct(t.db.catalog, n) <==> HasProduct(s.db.catalog, n) || exists j :: 0 <= j < |gs| && Names(gs[j], n) {
        if Complete(gs[m]) && n == gs[m].name.value {
          assert Names(gs[m], n);
        }
      }
    }
  }

  lemma {:induction false} GoodsRun(s: Session, gs: seq<Good>)
    requires s.error.None? && ValidCatalog(s.db.catalog) && s.regs.shop in s.db.catalog.shops.rows
    ensures var c, t := s.db.catalog, Run(s, LoadGoods(gs));
      && (t.error.None? <==> AllPlaced(c, c.categories.rows.Keys, gs))
      && (t.error.None? ==> GoodsDone(s, t, gs))
    decreases |gs|
  {
    if gs != [] {
      var c, m := s.db.catalog, |gs| - 1;
      GoodsRun(s, gs[..m]);
      LoadGoodsSnoc(gs);
      RunAppend(s, LoadGoods(gs[..m]), LoadGood(gs[m]));
      GoodsSnocCondition(c, c.categories.rows.Keys, gs);
      var u := Run(s, LoadGoods(gs[..m]));
      if u.error.None? {
        GoodsDoneStep(s, u, gs);
        if Complete(gs[m]) {
          LastPlaced(c, c.categories.rows.Keys, gs);
        }
      }
    }
  }

  // ---------- Categories ----------

  /** One accepted entry, both statements. */
  lemma EntryExactly(s: Session, e: CategoryEntry, rest: seq<Stmt>)
    requires s.error.None? && ValidCatalog(s.db.catalog) && s.regs.shop in s.db.catalog.shops.rows && Accepted(e)
    ensures var p := [OpenCategory(Some(e.id.value), Some(e.name.value)), LinkCategory];
      var t := Run(s, p); var c, d := s.db.catalog, t.db.catalog;
      && Run(s, p + rest) == Run(t, rest)
      && t.error.None? && ValidCatalog(d)
      && t == s.(db := s.db.(catalog := c.(categories := d.categories, links := d.links)),
                 regs := s.regs.(category := t.regs.category))
      && d.links == c.links + {(e.id.value, s.regs.shop)}
      && d.categories.rows == c.categories.rows[e.id.value :=
           if e.id.value in c.categories.rows then c.categories.rows[e.id.value] else Category(e.name.value)]
  {
    var one := OpenCategory(Some(e.id.value), Some(e.name.value));
    RunAppend(s, [one, LinkCategory], rest);
    assert [one, LinkCategory] == [one] + ([LinkCategory] + []);
    RunStep(s, one, [LinkCategory] + []);
    var s1 := Exec(s, one);
    if s1.db.catalog != s.db.catalog { CategoryKeeps(s.db.catalog, one.categoryId, one.categoryName); }
    RunStep(s1, LinkCategory, []);
    LinkKeeps(s1.db.catalog, s1.regs.category, s1.regs.shop);
  }

  lemma {:induction false} CategoriesRun(s: Session, es: seq<CategoryEntry>)
    requires s.error.None? && ValidCatalog(s.db.catalog) && s.regs.shop in s.db.catalog.shops.rows
    ensures var c, t := s.db.catalog, Run(s, LoadCategories(es)); var d := t.db.catalog;
      && t.error.None? && ValidCatalog(d) && d.categories.rows.Keys == CategoriesAfter(c, es)
      && t == s.(db := s.db.(catalog := c.(categories := d.categories, links := d.links)),
                 regs := s.regs.(category := t.regs.category))
    decreases |es|
  {
    if es != [] {
      var c := s.db.catalog;
      if Accepted(es[0]) {
        EntryExactly(s, es[0], LoadCategories(es[1..]));
        var t := Run(s, LoadCategory(es[0]));
        CategoriesRun(t, es[1..]);
        assert t.db.catalog.categories.rows.Keys == c.categories.rows.Keys + {es[0].id.value};
        CategoriesCons(c, es);
      } else {
        assert LoadCategories(es) == LoadCategories(es[1..]);
        CategoriesRun(s, es[1..]);
        CategoriesCons(c, es);
      }
    }
  }

  lemma CategoriesCons(c: Catalog, es: seq<CategoryEntry>)
    requires es != []
    ensures CategoriesAfter(c, es) ==
      c.categories.rows.Keys + (if Accepted(es[0]) then {es[0].id.value} else {}) +
      set e | e in es[1..] && Accepted(e) :: e.id.value
  {
    assert es == [es[0]] + es[1..];
  }

  // ---------- The whole import ----------

  lemma CategoriesThenClear(s: Session, es: seq<CategoryEntry>)
    requires s.error.None? && ValidCatalog(s.db.catalog) && s.regs.shop in s.db.catalog.shops.rows
    ensures var c, t := s.db.catalog, Run(s, LoadCategories(es) + [ClearOffers]); var d := t.db.catalog;
      && t.error.None? && ValidCatalog(d) && d.categories.rows.Keys == CategoriesAfter(c, es)
      && d.shops == c.shops && d.products == c.products && t.regs == s.regs.(category := t.regs.category)
  {
    RunAppend(s, LoadCategories(es), [ClearOffers]);
    CategoriesRun(s, es);
    var t := Run(s, LoadCategories(es));
    RunStep(t, ClearOffers, []);
    assert [ClearOffers] + [] == [ClearOffers];
    ClearKeeps(t.db.catalog, t.regs.shop);
  }

  lemma HeadRuns(db: Db, f: PriceFile, user: Option<Id>)
    requires ValidCatalog(db.catalog) && f.categories != Missing
    ensures var c, t := db.catalog, Run(Begin(db), LoadHead(f, user)); var d := t.db.catalog;
      && (t.error.None? <==> f.shop.Given? && f.categories.Given? && ShopOpens(c, f.shop.value, TruthyUser(user)))
      && (t.error.None? ==>
            && ValidCatalog(d) && t.regs.shop in d.shops.rows && d.shops.rows[t.regs.shop].name == f.shop.value
            && d.categories.rows.Keys == CategoriesAfter(c, f.categories.value) && d.products == c.products
            && t.regs.product == 0 && t.regs.info == 0 && t.regs.parameter == 0)
  {
    var s, c := Begin(db), db.catalog;
    var one := OpenShop(f.shop.Get(), TruthyUser(user));
    var two := LoadMiddle(f);
    assert LoadHead(f, user) == [one] + (two + [ClearOffers]);
    RunStep(s, one, two + [ClearOffers]);
    var s1 := Exec(s, one);
    if f.shop.Given? { OneShop(c, f.shop.value); }
    if s1.error.None? {
      ShopKeeps(c, f.shop.Get(), TruthyUser(user));
      if s1.db.catalog == c { assert s1.regs.shop in ShopsNamed(c.shops.rows, f.shop.value); }
      if f.categories.Given? {
        CategoriesThenClear(s1, f.categories.value);
      } else {
        RunAppend(s1, two, [ClearOffers]);
      }
    }
  }

  /** `load_data` returns Status True exactly for the importable files, from any valid store. */
  lemma LoadSucceedsExactly(db: Db, f: PriceFile, user: Option<Id>)
    requires ValidCatalog(db.catalog)
    ensures Run(Begin(db), LoadProgram(f, user)).error.None? <==> Importable(db.catalog, f, user)
  {
    if f.shop != Missing && f.categories != Missing && f.goods != Missing {
      var s := Begin(db);
      HeadRuns(db, f, user);
      RunAppend(s, LoadHead(f, user), LoadTail(f));
      var t := Run(s, LoadHead(f, user));
      if t.error.None? && f.goods.Given? {
        GoodsRun(t, f.goods.value);
        SameProducts(db.catalog, t.db.catalog, CategoriesAfter(db.catalog, f.categories.value), f.goods.value);
      }
    }
  }

  lemma SameProducts(c: Catalog, d: Catalog, categories: set<Id>, gs: seq<Good>)
    requires c.products == d.products
    ensures AllPlaced(c, categories, gs) <==> AllPlaced(d, categories, gs)
  {
    forall k | 0 <= k < |gs| && Complete(gs[k]) ensures Placed(c, categories, gs, k) <==> Placed(d, categories, gs, k) {}
  }
}
