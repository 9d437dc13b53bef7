/**
 When `do_import` succeeds: an exact condition on the store and the file.  Its create branch never
 works, so every good has to be listed by the shop already.
 */
module ImportSuccess {
  import opened Prelude
  import opened Tables
  import opened Orm
  import opened Programs
  import opened LoadSuccess
  import opened LoadResult
  import opened ImportFrame
  import opened ImportResult
  import opened ImportAgain
  import opened ImportSettles

  // ---------- The condition ----------

  /** The category table after these entries, or None if one of them raises. */
  function CategoriesImported(t: Table<Category>, es: seq<CategoryEntry>): Option<Table<Category>>
    decreases |es|
  {
    if es == [] then Some(t)
    else if es[0].id.Missing? || es[0].name.Missing? then None
    else if es[0].id.Given? && es[0].id.value in t.rows then CategoriesImported(t, es[1..])
    else if es[0].name.Null? then None
    else
      var row := Category(es[0].name.value);
      CategoriesImported(if es[0].id.Given? then t.InsertAt(es[0].id.value, row) else t.Insert(row), es[1..])
  }

  ghost predicate Stocks(c: Catalog, shopName: string, ext: int) {
    exists i | i in c.infos.rows && c.infos.rows[i].ext == ext && c.infos.rows[i].shop in c.shops.rows ::
      c.shops.rows[c.infos.rows[i].shop].name == shopName
  }

  predicate NotNegative(x: Option<int>) {
    x.Some? && 0 <= x.value
  }

  /** Everything about a good but whether its shop lists it. */
  predicate Acceptable(categories: set<Id>, g: Good) {
    && g.category.Given? && g.category.value in categories && g.name.Given? && g.id.Given?
    && NotNegative(g.price.GetOr(0)) && NotNegative(g.quantity.GetOr(0)) && g.parameters != Null
  }

  ghost predicate Reimportable(c: Catalog, f: PriceFile) {
    && f.shop != Null && f.categories != Null && f.goods != Null
    && var table := CategoriesImported(c.categories, OrEmpty(f.categories));
    && table.Some?
    && forall g :: g in OrEmpty(f.goods) ==>
         Acceptable(table.value.rows.Keys, g) && Stocks(c, f.shop.GetOr("Default Shop").value, g.id.value)
  }

  // ---------- Categories ----------

  lemma EntryImports(s: Session, e: CategoryEntry)
    requires s.error.None? && ValidCatalog(s.db.catalog) && e.id != Missing && e.name != Missing
    ensures var c, t, table := s.db.catalog, Exec(s, OpenCategory(e.id.Get(), e.name.Get())), CategoriesImported(s.db.catalog.categories, [e]);
      && (t.error.None? <==> table.Some?)
      && (t.error.None? ==> ValidCatalog(t.db.catalog) && t.db.catalog == c.(categories := table.value) && t.regs.shop == s.regs.shop)
  {
    ImportStmtKeeps(s, OpenCategory(e.id.Get(), e.name.Get()));
    assert [e][1..] == [];
  }

  lemma ImportedCons(t: Table<Category>, es: seq<CategoryEntry>)
    requires es != []
    ensures CategoriesImported(t, es) ==
      match CategoriesImported(t, [es[0]])
      case None => None
      case Some(u) => CategoriesImported(u, es[1..])
  {
    assert [es[0]][1..] == [];
  }

  lemma {:induction false} CategoriesImport(s: Session, es: seq<CategoryEntry>)
    requires s.error.None? && ValidCatalog(s.db.catalog)
    ensures var c, t, table := s.db.catalog, Run(s, ImportCategories(es)), CategoriesImported(s.db.catalog.categories, es);
      && (t.error.None? <==> table.Some?)
      && (t.error.None? ==> ValidCatalog(t.db.catalog) && t.db.catalog == c.(categories := table.value) && t.regs.shop == s.regs.shop)
    decreases |es|
  {
    if es != [] {
      var e, rest := es[0], ImportCategories(es[1..]);
      ImportedCons(s.db.catalog.categories, es);
      if e.id.Missing? || e.name.Missing? {
        assert ImportCategories(es) == [Raise(KeyError)] + rest;
        RunStep(s, Raise(KeyError), rest);
      } else {
        var one := OpenCategory(e.id.Get(), e.name.Get());
        assert ImportCategories(es) == [one] + ([Tally(Categories)] + rest);
        RunStep(s, one, [Tally(Categories)] + rest);
        EntryImports(s, e);
        var s1 := Exec(s, one);
        if s1.error.None? {
          RunStep(s1, Tally(Categories), rest);
          CategoriesImport(Exec(s1, Tally(Categories)), es[1..]);
        }
      }
    }
  }

  // ---------- One good ----------

  /** One parameter of a listed row never fails. */
  lemma ParameterImports(s: Session, ext: int, p: (string, Scalar))
    requires s.error.None? && ValidCatalog(s.db.catalog) && InfosAt(s.db.catalog.infos.rows, s.regs.shop, ext) != {}
    ensures var t := Run(s, ImportParameter(Some(ext), p));
      t.error.None? && ValidCatalog(t.db.catalog) && t.db.catalog.infos == s.db.catalog.infos && t.regs.shop == s.regs.shop
  {
    var one, two, three := OpenParameter(p.0), FindOffer(Some(ext)), PutValue(p.1.Str());
    ParameterRuns(s, p.0);
    var s1 := Exec(s, one);
    OneOffer(s1.db.catalog, s1.regs.shop, ext);
    var s2 := Exec(s1, two);
    assert s2.regs.info in InfosAt(s1.db.catalog.infos.rows, s1.regs.shop, ext);
    assert s2 == s1.(regs := s1.regs.(info := s2.regs.info));
    ValueRuns(s2, p.1.Str());
    FourSteps(s, one, two, three, Tally(Parameters));
  }

  lemma {:induction false} ParametersImport(s: Session, ext: int, ps: seq<(string, Scalar)>)
    requires s.error.None? && ValidCatalog(s.db.catalog) && InfosAt(s.db.catalog.infos.rows, s.regs.shop, ext) != {}
    ensures Run(s, ImportParameters(Some(ext), ps)).error.None?
    decreases |ps|
  {
    if ps != [] {
      RunAppend(s, ImportParameter(Some(ext), ps[0]), ImportParameters(Some(ext), ps[1..]));
      ParameterImports(s, ext, ps[0]);
      ParametersImport(Run(s, ImportParameter(Some(ext), ps[0])), ext, ps[1..]);
    }
  }

  /** A good whose row exists and whose columns are acceptable. */
  ghost predicate Matched(c: Catalog, shop: Id, g: Good) {
    Acceptable(c.categories.rows.Keys, g) && InfosAt(c.infos.rows, shop, g.id.value) != {}
  }

  lemma RowImports(s: Session, g: Good)
    requires s.error.None? && ValidCatalog(s.db.catalog) && Matched(s.db.catalog, s.regs.shop, g)
    ensures var t := Run(s, ImportRow(g));
      && t.error.None? && ValidCatalog(t.db.catalog) && t.regs.shop == s.regs.shop
      && InfosAt(t.db.catalog.infos.rows, t.regs.shop, g.id.value) != {}
  {
    var c := s.db.catalog;
    var one, two, three := ImportRow(g)[0], ImportRow(g)[1], ImportRow(g)[2];
    var s1 := Exec(s, one);
    assert s1 == s.(regs := s.regs.(category := g.category.value));
    ProductRuns(s1, g.name.value, g.category.value);
    var s2 := Exec(s1, two);
    assert s2.error.None? && s2.db.catalog.infos == c.infos && s2.regs.shop == s.regs.shop;
    OneOffer(c, s.regs.shop, g.id.value);
    var s3 := Exec(s2, three);
    ImportStmtKeeps(s2, three);
    assert ImportRow(g) == [one, two, three, Tally(Products)];
    FourSteps(s, one, two, three, Tally(Products));
    var i := Lookup(InfosAt(c.infos.rows, s.regs.shop, g.id.value)).id;
    assert i in InfosAt(c.infos.rows, s.regs.shop, g.id.value);
    assert i in InfosAt(s3.db.catalog.infos.rows, s.regs.shop, g.id.value);
  }

  /** A good imports without error exactly when it is acceptable and its row is there. */
  lemma GoodImports(s: Session, g: Good)
    requires s.error.None? && ValidCatalog(s.db.catalog)
    ensures Run(s, ImportGood(g)).error.None? <==> Matched(s.db.catalog, s.regs.shop, g)
  {
    if Matched(s.db.catalog, s.regs.shop, g) {
      var field := ImportParameterField(g.id.Get(), g.parameters);
      assert ImportGood(g) == ImportRow(g) + field;
      RunAppend(s, ImportRow(g), field);
      RowImports(s, g);
      ParametersImport(Run(s, ImportRow(g)), g.id.value, OrEmpty(g.parameters));
    }
    if Run(s, ImportGood(g)).error.None? {
      ImportedGood(s, g);
      CategoryWasKnown(s, g);
    }
  }

  lemma CategoryWasKnown(s: Session, g: Good)
    requires s.error.None? && Run(s, ImportGood(g)).error.None? && g.category.Given?
    ensures g.category.value in s.db.catalog.categories.rows
  {
    var one := FindCategory(g.category.Get());
    assert ImportGood(g) == [one] + ImportGood(g)[1..];
    RunStep(s, one, ImportGood(g)[1..]);
  }

  // ---------- All goods ----------

  lemma {:induction false} KeepsCategories(s: Session, p: seq<Stmt>)
    requires forall st :: st in p ==> !st.OpenCategory? && !st.OpenExactCategory?
    ensures Run(s, p).db.catalog.categories == s.db.catalog.categories
    decreases |p|
  {
    if p != [] && s.error.None? {
      assert p[0] in p;
      KeepsCategories(Exec(s, p[0]), p[1..]);
    }
  }

  lemma {:induction false} ParametersOpenNone(ext: Option<int>, ps: seq<(string, Scalar)>)
    ensures forall st :: st in ImportParameters(ext, ps) ==> !st.OpenCategory? && !st.OpenExactCategory?
    decreases |ps|
  {
    if ps != [] {
      ParametersOpenNone(ext, ps[1..]);
    }
  }

  lemma SameRowsAt(c: Catalog, d: Catalog, shop: Id, ext: int)
    requires SameRows(c, d)
    ensures InfosAt(c.infos.rows, shop, ext) == InfosAt(d.infos.rows, shop, ext)
  {
    assert forall i :: i in c.infos.rows <==> i in d.infos.rows;
    SameSet(InfosAt(c.infos.rows, shop, ext), InfosAt(d.infos.rows, shop, ext));
  }

  /** Importing one good makes no difference to whether another can be imported. */
  lemma MatchedStays(s: Session, g: Good, h: Good)
    requires s.error.None? && ValidCatalog(s.db.catalog)
    ensures var t := Run(s, ImportGood(g));
      && ValidCatalog(t.db.catalog) && t.regs.shop == s.regs.shop
      && (Matched(t.db.catalog, t.regs.shop, h) <==> Matched(s.db.catalog, s.regs.shop, h))
  {
    ImportGoodBody(g);
    ImportKeeps(s, ImportGood(g));
    ParametersOpenNone(g.id.Get(), OrEmpty(g.parameters));
    KeepsCategories(s, ImportGood(g));
    BodyIsSafe(ImportGood(g));
    RunKeepsShop(s, ImportGood(g));
    if h.id.Given? {
      SameRowsAt(s.db.catalog, Run(s, ImportGood(g)).db.catalog, s.regs.shop, h.id.value);
    }
  }

  lemma {:induction false} GoodsImport(s: Session, gs: seq<Good>)
    requires s.error.None? && ValidCatalog(s.db.catalog)
    ensures Run(s, ImportGoods(gs)).error.None? <==> forall g :: g in gs ==> Matched(s.db.catalog, s.regs.shop, g)
    decreases |gs|
  {
    if gs != [] {
      var g := gs[0];
      assert gs == [g] + gs[1..];
      RunAppend(s, ImportGood(g), ImportGoods(gs[1..]));
      GoodImports(s, g);
      var t := Run(s, ImportGood(g));
      if t.error.None? {
        forall h ensures Matched(t.db.catalog, t.regs.shop, h) <==> Matched(s.db.catalog, s.regs.shop, h) { MatchedStays(s, g, h); }
        MatchedStays(s, g, g);
        GoodsImport(t, gs[1..]);
      }
    }
  }

  // ---------- The whole import ----------

  /** The rows that the opened shop lists are the rows that a shop of its name listed before. */
  lemma OpenedShopStocks(c: Catalog, name: string, ext: int)
    requires ValidCatalog(c) && GetOrCreateShop(c, Some(name), None).Ok?
    ensures InfosAt(c.infos.rows, GetOrCreateShop(c, Some(name), None).id, ext) != {} <==> Stocks(c, name, ext)
  {
    var shop := GetOrCreateShop(c, Some(name), None).id;
    OneShop(c, name);
    var named := ShopsNamed(c.shops.rows, name);
    if InfosAt(c.infos.rows, shop, ext) != {} {
      var i := Any(InfosAt(c.infos.rows, shop, ext));
      assert shop in c.shops.rows;
      assert shop in named;
      assert i in c.infos.rows && c.infos.rows[i].ext == ext;
    }
    if Stocks(c, name, ext) {
      var i :| i in c.infos.rows && c.infos.rows[i].ext == ext && c.infos.rows[i].shop in c.shops.rows &&
               c.shops.rows[c.infos.rows[i].shop].name == name;
      assert c.infos.rows[i].shop in named;
      assert i in InfosAt(c.infos.rows, shop, ext);
    }
  }

  lemma ImportHeadSucceeds(db: Db, f: PriceFile)
    requires ValidCatalog(db.catalog)
    ensures var c, t, table := db.catalog, Run(Begin(db), ImportHead(f)), CategoriesImported(db.catalog.categories, OrEmpty(f.categories));
      && (t.error.None? <==> f.shop != Null && f.categories != Null && table.Some?)
      && (t.error.None? ==>
            var opens := GetOrCreateShop(c, f.shop.GetOr("Default Shop"), None);
            && opens.Ok? && t.regs.shop == opens.id && ValidCatalog(t.db.catalog)
            && t.db.catalog.categories == table.value && t.db.catalog.infos == c.infos)
  {
    var s, c := Begin(db), db.catalog;
    var one := OpenShop(f.shop.GetOr("Default Shop"), None);
    var two := ImportMiddle(f);
    assert ImportHead(f) == [one] + two;
    RunStep(s, one, two);
    if f.shop != Null { OneShop(c, one.shopName.value); }
    var s1 := Exec(s, one);
    if s1.error.None? && f.categories != Null {
      ImportStmtKeeps(s, one);
      CategoriesImport(s1, OrEmpty(f.categories));
    }
  }

  lemma ImportTailSucceeds(t: Session, c: Catalog, f: PriceFile, name: string)
    requires t.error.None? && ValidCatalog(t.db.catalog) && ValidCatalog(c) && t.db.catalog.infos == c.infos
    requires GetOrCreateShop(c, Some(name), None).Ok? && t.regs.shop == GetOrCreateShop(c, Some(name), None).id
    ensures Run(t, ImportTail(f)).error.None? <==>
      f.goods != Null && forall g :: g in OrEmpty(f.goods) ==>
        Acceptable(t.db.catalog.categories.rows.Keys, g) && Stocks(c, name, g.id.value)
  {
    GoodsImport(t, OrEmpty(f.goods));
    forall ext ensures InfosAt(c.infos.rows, t.regs.shop, ext) != {} <==> Stocks(c, name, ext) {
      OpenedShopStocks(c, name, ext);
    }
  }

  /** `do_import` gets to its end exactly for the reimportable files, from any valid store. */
  lemma ImportSucceedsExactly(db: Db, f: PriceFile, task: Id)
    requires ValidCatalog(db.catalog)
    ensures Run(Begin(db), ImportProgram(f, task)).error.None? <==> Reimportable(db.catalog, f)
  {
    var s, head, tail := Begin(db), ImportHead(f), ImportTail(f);
    RunAppend(s, head + tail, [Finish(task)]);
    RunAppend(s, head, tail);
    ImportHeadSucceeds(db, f);
    var t := Run(s, head);
    if t.error.None? {
      ImportTailSucceeds(t, db.catalog, f, f.shop.GetOr("Default Shop").value);
      if Run(t, tail).error.None? { FinishRuns(Run(t, tail), task); }
    }
  }
}
