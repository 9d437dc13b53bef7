/**
 What the loops of `do_import` leave behind: every category entry's row, and a store that agrees with every
 good imported, name, numbers and parameters, by the last mention of each.
 */
module ImportSettles {
  import opened Prelude
  import opened Tables
  import opened Orm
  import opened Programs
  import opened PriceView
  import opened LoadSuccess
  import opened LoadResult
  import opened ImportFrame
  import opened ImportResult
  import opened ImportAgain
  import opened ImportCounts

  // ---------- What one imported good does to a price list ----------

  ghost function MergeAll(m: imap<string, string>, ps: seq<(string, Scalar)>): imap<string, string> {
    if ps == [] then m else MergeAll(m, ps[..|ps|-1])[ps[|ps|-1].0 := ps[|ps|-1].1.Str()]
  }

  lemma {:induction false} MergeAllShows(m: imap<string, string>, ps: seq<(string, Scalar)>, name: string)
    ensures name in MergeAll(m, ps) <==> name in m || LastParameter(ps, name).Some?
    ensures LastParameter(ps, name).Some? ==> MergeAll(m, ps)[name] == LastParameter(ps, name).value
    ensures LastParameter(ps, name).None? && name in m ==> MergeAll(m, ps)[name] == m[name]
    decreases |ps|
  {
    if ps != [] {
      MergeAllShows(m, ps[..|ps|-1], name);
    }
  }

  lemma AbsParameterStep(a: Abs, ext: int, p: (string, Scalar))
    requires (a.shop, ext) in a.view
    ensures var b, key := AbsRun(a, ImportParameter(Some(ext), p)), (a.shop, ext);
      b.shop == a.shop && b.view == a.view[key := a.view[key].(parameters := a.view[key].parameters[p.0 := p.1.Str()])]
  {
    var one, two, three, four := OpenParameter(p.0), FindOffer(Some(ext)), PutValue(p.1.Str()), Tally(Parameters);
    assert ImportParameter(Some(ext), p) == [one] + ([two] + ([three] + ([four] + [])));
    AbsStep(a, one, [two] + ([three] + ([four] + [])));
    AbsStep(AbsExec(a, one), two, [three] + ([four] + []));
    AbsStep(AbsExec(AbsExec(a, one), two), three, [four] + []);
    AbsStep(AbsExec(AbsExec(AbsExec(a, one), two), three), four, []);
  }

  lemma {:induction false} AbsImportParameters(a: Abs, ext: int, ps: seq<(string, Scalar)>)
    requires (a.shop, ext) in a.view
    ensures var b, key := AbsRun(a, ImportParameters(Some(ext), ps)), (a.shop, ext);
      b.shop == a.shop && b.view == a.view[key := a.view[key].(parameters := MergeAll(a.view[key].parameters, ps))]
    decreases |ps|
  {
    var key := (a.shop, ext);
    if ps == [] {
      assert a.view[key := a.view[key]] == a.view;
    } else {
      var m := |ps| - 1;
      AbsImportParameters(a, ext, ps[..m]);
      ImportParametersSnoc(Some(ext), ps);
      AbsRunAppend(a, ImportParameters(Some(ext), ps[..m]), ImportParameter(Some(ext), ps[m]));
      AbsParameterStep(AbsRun(a, ImportParameters(Some(ext), ps[..m])), ext, ps[m]);
    }
  }

  ghost predicate Patchable(a: Abs, g: Good) {
    && g.category != Missing && g.name.Given? && g.id.Given? && g.parameters != Null
    && g.price.GetOr(0).Some? && g.quantity.GetOr(0).Some? && (a.shop, g.id.value) in a.view
  }

  ghost function PatchedOffer(o: Offer, g: Good): Offer
    requires g.name.Given? && g.price.GetOr(0).Some? && g.quantity.GetOr(0).Some?
  {
    o.(product := g.name.value, price := g.price.GetOr(0).value, quantity := g.quantity.GetOr(0).value,
       parameters := MergeAll(o.parameters, OrEmpty(g.parameters)))
  }

  lemma AbsImportRow(a: Abs, g: Good)
    requires Patchable(a, g)
    ensures var b, key := AbsRun(a, ImportRow(g)), (a.shop, g.id.value);
      b.shop == a.shop && b.view == a.view[key := PatchedOffer(a.view[key], g.(parameters := Missing))]
  {
    var one, two, three, four := ImportRow(g)[0], ImportRow(g)[1], ImportRow(g)[2], ImportRow(g)[3];
    assert ImportRow(g) == [one] + ([two] + ([three] + ([four] + [])));
    AbsStep(a, one, [two] + ([three] + ([four] + [])));
    AbsStep(AbsExec(a, one), two, [three] + ([four] + []));
    AbsStep(AbsExec(AbsExec(a, one), two), three, [four] + []);
    AbsStep(AbsExec(AbsExec(AbsExec(a, one), two), three), four, []);
  }

  lemma AbsImportGood(a: Abs, g: Good)
    requires Patchable(a, g)
    ensures var b, e := AbsRun(a, ImportGood(g)), g.id.value;
      && b.shop == a.shop && Elsewhere(a.view, b.view, a.shop)
      && Of(b.view, a.shop) == Of(a.view, a.shop)[e := PatchedOffer(Of(a.view, a.shop)[e], g)]
  {
    var ps, key := OrEmpty(g.parameters), (a.shop, g.id.value);
    assert ImportGood(g) == ImportRow(g) + ImportParameters(Some(g.id.value), ps);
    AbsRunAppend(a, ImportRow(g), ImportParameters(Some(g.id.value), ps));
    AbsImportRow(a, g);
    AbsImportParameters(AbsRun(a, ImportRow(g)), g.id.value, ps);
    var b := AbsRun(a, ImportGood(g));
    assert b.view == a.view[key := PatchedOffer(a.view[key], g)];
    Written(a.view, b.view, a.shop, g.id.value, PatchedOffer(a.view[key], g));
  }

  ghost function ParametersIn(prices: Prices, ext: int): imap<string, string> {
    if ext in prices then prices[ext].parameters else NO_PARAMETERS
  }

  /** One more good: the list agrees with one more good. */
  lemma AgreementStep(prices: Prices, init: seq<Good>, g: Good, o: Offer)
    requires AgreesWith(prices, init) && g.id.Given? && SameColumns(o, g)
    requires o.parameters == MergeAll(ParametersIn(prices, g.id.value), OrEmpty(g.parameters))
    ensures AgreesWith(prices[g.id.value := o], init + [g])
  {
    var e, gs := g.id.value, init + [g];
    assert gs[..|gs|-1] == init;
    forall ext, name | LastTextFor(gs, ext, name).Some?
      ensures ext in prices[e := o] && name in prices[e := o][ext].parameters && prices[e := o][ext].parameters[name] == LastTextFor(gs, ext, name).value
    {
      assert LastTextFor(gs, ext, name) ==
        if g.id == Given(ext) && LastParameter(OrEmpty(g.parameters), name).Some? then LastParameter(OrEmpty(g.parameters), name)
        else LastTextFor(init, ext, name);
      MergeAllShows(ParametersIn(prices, e), OrEmpty(g.parameters), name);
    }
    forall ext | LastFor(gs, ext).Some?
      ensures ext in prices[e := o] && SameColumns(prices[e := o][ext], LastFor(gs, ext).value)
    {
      assert LastFor(gs, ext) == if g.id == Given(ext) then Some(g) else LastFor(init, ext);
    }
  }

  // ---------- From programs to statements that ran ----------

  lemma RanFirst(s: Session, st: Stmt, rest: seq<Stmt>)
    requires s.error.None? && Run(s, [st] + rest).error.None?
    ensures Exec(s, st).error.None? && Run(Exec(s, st), rest) == Run(s, [st] + rest)
  {
    RunStep(s, st, rest);
  }

  lemma RanHalves(s: Session, p: seq<Stmt>, q: seq<Stmt>)
    requires s.error.None? && Run(s, p + q).error.None?
    ensures Run(s, p).error.None? && Run(Run(s, p), q) == Run(s, p + q)
  {
    RunAppend(s, p, q);
  }

  lemma FourRan(s: Session, one: Stmt, two: Stmt, three: Stmt, four: Stmt)
    requires s.error.None? && Run(s, [one, two, three, four]).error.None?
    ensures Exec(s, one).error.None? && Exec(Exec(s, one), two).error.None? && Exec(Exec(Exec(s, one), two), three).error.None?
    ensures Run(s, [one, two, three, four]) == Exec(Exec(Exec(Exec(s, one), two), three), four)
  {
    assert [one, two, three, four] == [one] + ([two] + ([three] + ([four] + [])));
    RanFirst(s, one, [two] + ([three] + ([four] + [])));
    RanFirst(Exec(s, one), two, [three] + ([four] + []));
    RanFirst(Exec(Exec(s, one), two), three, [four] + []);
    RanFirst(Exec(Exec(Exec(s, one), two), three), four, []);
  }

  lemma CategoryRan(s: Session, g: Good)
    requires s.error.None? && Exec(s, FindCategory(g.category.Get())).error.None?
    ensures g.category.Given? && g.category.value in s.db.catalog.categories.rows
    ensures Exec(s, FindCategory(g.category.Get())) == s.(regs := s.regs.(category := g.category.value))
  {}

  lemma ProductRan(s: Session, g: Good)
    requires s.error.None? && ValidCatalog(s.db.catalog) && Exec(s, OpenProduct(g.name.Get(), g.category.Get())).error.None?
    ensures var c, t := s.db.catalog, Exec(s, OpenProduct(g.name.Get(), g.category.Get())); var d := t.db.catalog;
      && g.name.Given? && HasProduct(d, g.name.value) && ValidCatalog(d)
      && d.infos == c.infos && d.categories == c.categories && t.regs.shop == s.regs.shop
  {
    ImportStmtKeeps(s, OpenProduct(g.name.Get(), g.category.Get()));
    ProductNamedAfter(s, OpenProduct(g.name.Get(), g.category.Get()));
  }

  lemma PatchRan(s: Session, g: Good)
    requires s.error.None? && ValidCatalog(s.db.catalog)
    requires Exec(s, PatchOffer(g.id.Get(), g.price.GetOr(0), g.quantity.GetOr(0))).error.None?
    ensures var c, d := s.db.catalog, Exec(s, PatchOffer(g.id.Get(), g.price.GetOr(0), g.quantity.GetOr(0))).db.catalog;
      && g.id.Given? && InfosAt(c.infos.rows, s.regs.shop, g.id.value) != {}
      && g.price != Null && 0 <= g.price.GetOr(0).value && g.quantity != Null && 0 <= g.quantity.GetOr(0).value
      && ValidCatalog(d) && d.categories == c.categories && d.products == c.products
  {
    ImportStmtKeeps(s, PatchOffer(g.id.Get(), g.price.GetOr(0), g.quantity.GetOr(0)));
  }

  /** The row statements of a good that ran without error found its row, and only storable numbers. */
  lemma RowRan(s: Session, g: Good)
    requires s.error.None? && ValidCatalog(s.db.catalog) && Run(s, ImportRow(g)).error.None? && g.parameters != Null
    ensures g.category.Given? && g.name.Given? && g.id.Given? && InfosAt(s.db.catalog.infos.rows, s.regs.shop, g.id.value) != {}
    ensures ValidCatalog(Run(s, ImportRow(g)).db.catalog) && Supported(Run(s, ImportRow(g)).db.catalog, g)
  {
    var one, two, three := ImportRow(g)[0], ImportRow(g)[1], ImportRow(g)[2];
    FourRan(s, one, two, three, Tally(Products));
    CategoryRan(s, g);
    ProductRan(Exec(s, one), g);
    PatchRan(Exec(Exec(s, one), two), g);
  }

  lemma SupportPersists(c: Catalog, d: Catalog, g: Good)
    requires Extends(c, d) && Supported(c, g)
    ensures Supported(d, g)
  {
    var k := g.category.value;
    assert k in c.categories.rows;
    assert k in d.categories.rows;
    HasProductPersists(c, d, g.name);
  }

  /** A good that was imported without error had its row already, and is supported from then on. */
  lemma ImportedGood(s: Session, g: Good)
    requires s.error.None? && ValidCatalog(s.db.catalog) && Run(s, ImportGood(g)).error.None?
    ensures g.category.Given? && g.name.Given? && g.id.Given? && g.parameters != Null
    ensures InfosAt(s.db.catalog.infos.rows, s.regs.shop, g.id.value) != {}
    ensures Supported(Run(s, ImportGood(g)).db.catalog, g)
  {
    NothingMissing(s, g);
    var field := ImportParameterField(g.id.Get(), g.parameters);
    assert ImportGood(g) == ImportRow(g) + field;
    RanHalves(s, ImportRow(g), field);
    RowRan(s, g);
    var t := Run(s, ImportRow(g));
    ImportParametersBody(g.id.Get(), OrEmpty(g.parameters));
    ImportKeeps(t, field);
    SupportPersists(t.db.catalog, Run(t, field).db.catalog, g);
  }

  lemma {:induction false} RanNoRaise(s: Session, p: seq<Stmt>)
    requires s.error.None? && Run(s, p).error.None?
    ensures NoRaise(p)
    decreases |p|
  {
    if p != [] {
      RanNoRaise(Exec(s, p[0]), p[1..]);
      assert p == [p[0]] + p[1..];
    }
  }

  lemma NothingMissing(s: Session, g: Good)
    requires s.error.None? && Run(s, ImportGood(g)).error.None?
    ensures g.category != Missing && g.name != Missing && g.id != Missing && g.parameters != Null
  {
    RanNoRaise(s, ImportGood(g));
    assert g.category.Missing? ==> Raise(KeyError) in ImportGood(g);
    assert g.name.Missing? ==> Raise(KeyError) in ImportGood(g);
    assert g.id.Missing? ==> Raise(KeyError) in ImportGood(g);
    var field := ImportParameterField(g.id.Get(), g.parameters);
    assert ImportGood(g) == ImportRow(g) + field;
    assert forall st :: st in field ==> st in ImportGood(g);
    assert g.parameters.Null? ==> Raise(AttributeError) in field;
  }

  lemma ProductNamedAfter(s: Session, st: Stmt)
    requires st.OpenProduct? && Exec(s, st).error.None?
    ensures st.productName.Some? && HasProduct(Exec(s, st).db.catalog, st.productName.value)
  {
    var c, d := s.db.catalog, Exec(s, st).db.catalog;
    assert Exec(s, st).regs.product in ProductsNamed(d.products.rows, st.productName.value) by {
      if d == c { assert Exec(s, st).regs.product in ProductsNamed(c.products.rows, st.productName.value); }
    }
  }

  lemma HasProductPersists(c: Catalog, d: Catalog, name: Field<string>)
    requires forall p :: p in c.products.rows ==> p in d.products.rows && d.products.rows[p] == c.products.rows[p]
    ensures name.Given? && HasProduct(c, name.value) ==> HasProduct(d, name.value)
  {
    if name.Given? && HasProduct(c, name.value) {
      var p := Any(ProductsNamed(c.products.rows, name.value));
      assert p in ProductsNamed(d.products.rows, name.value);
    }
  }

  // ---------- All goods ----------

  lemma ListIsView(c: Catalog, r: Regs, a: Abs)
    requires Match(c, r, a)
    ensures PriceList(c, r.shop) == Of(a.view, a.shop)
  {
    PriceListIsView(c, r.shop);
  }

  lemma BodyIsSafe(p: seq<Stmt>)
    requires ImportBody(p)
    ensures SafeBody(p) && (forall st :: st in p ==> ImportStmt(st) && BodyStmt(st))
  {}

  /** Importing one good keeps the agreement going. */
  lemma GoodSettles(s: Session, a: Abs, init: seq<Good>, g: Good)
    requires s.error.None? && ValidCatalog(s.db.catalog) && Match(s.db.catalog, s.regs, a)
    requires Run(s, ImportGood(g)).error.None? && AgreesWith(PriceList(s.db.catalog, s.regs.shop), init)
    ensures var t := Run(s, ImportGood(g));
      && Match(t.db.catalog, t.regs, AbsRun(a, ImportGood(g))) && t.regs.shop == s.regs.shop
      && AgreesWith(PriceList(t.db.catalog, t.regs.shop), init + [g])
  {
    var t, b := Run(s, ImportGood(g)), AbsRun(a, ImportGood(g));
    ImportGoodBody(g);
    BodyIsSafe(ImportGood(g));
    RunRefines(s, a, ImportGood(g));
    RunKeepsShop(s, ImportGood(g));
    ImportedGood(s, g);
    ListIsView(s.db.catalog, s.regs, a);
    ListIsView(t.db.catalog, t.regs, b);
    var i := Any(InfosAt(s.db.catalog.infos.rows, s.regs.shop, g.id.value));
    ListedRow(s.db.catalog, s.regs.shop, g.id.value, i);
    AbsImportGood(a, g);
    var prices := PriceList(s.db.catalog, s.regs.shop);
    AgreementStep(prices, init, g, PatchedOffer(prices[g.id.value], g));
  }

  lemma GoodSupports(s: Session, init: seq<Good>, g: Good)
    requires s.error.None? && ValidCatalog(s.db.catalog) && Run(s, ImportGood(g)).error.None? && AllSupported(s.db.catalog, init)
    ensures var d := Run(s, ImportGood(g)).db.catalog; ValidCatalog(d) && AllSupported(d, init + [g])
  {
    ImportedGood(s, g);
    ImportGoodBody(g);
    ImportKeeps(s, ImportGood(g));
    var d := Run(s, ImportGood(g)).db.catalog;
    forall h | h in init + [g] ensures Supported(d, h) {
      if h in init { SupportPersists(s.db.catalog, d, h); }
    }
  }

  lemma NothingSettles(c: Catalog, shop: Id)
    ensures AllSupported(c, []) && AgreesWith(PriceList(c, shop), [])
  {
    assert forall ext :: LastFor([], ext).None?;
    assert forall ext, name :: LastTextFor([], ext, name).None?;
  }

  lemma {:induction false} GoodsSettle(s: Session, a: Abs, gs: seq<Good>)
    requires s.error.None? && ValidCatalog(s.db.catalog) && Match(s.db.catalog, s.regs, a)
    requires Run(s, ImportGoods(gs)).error.None?
    ensures var t := Run(s, ImportGoods(gs));
      && ValidCatalog(t.db.catalog) && Match(t.db.catalog, t.regs, AbsRun(a, ImportGoods(gs))) && t.regs.shop == s.regs.shop
      && AllSupported(t.db.catalog, gs) && AgreesWith(PriceList(t.db.catalog, t.regs.shop), gs)
    decreases |gs|
  {
    if gs == [] {
      NothingSettles(s.db.catalog, s.regs.shop);
    } else {
      var m := |gs| - 1;
      var init, g := gs[..m], gs[m];
      assert init + [g] == gs;
      ImportGoodsSnoc(gs);
      RanHalves(s, ImportGoods(init), ImportGood(g));
      GoodsSettle(s, a, init);
      var u, b := Run(s, ImportGoods(init)), AbsRun(a, ImportGoods(init));
      AbsRunAppend(a, ImportGoods(init), ImportGood(g));
      GoodSettles(u, b, init, g);
      GoodSupports(u, init, g);
    }
  }

  // ---------- Categories ----------

  /** An entry that a second import will handle without error. */
  ghost predicate SettledEntry(c: Catalog, e: CategoryEntry) {
    && e.id != Missing && e.name != Missing
    && (e.id.Given? ==> e.id.value in c.categories.rows)
    && (e.id.Null? ==> e.name.Given?)
  }

  predicate NullId(e: CategoryEntry) {
    e.id.Null?
  }

  lemma CategorySettles(s: Session, e: CategoryEntry, rest: seq<Stmt>)
    requires s.error.None? && ValidCatalog(s.db.catalog) && Run(s, ImportCategory(e) + rest).error.None?
    ensures var t := Run(s, ImportCategory(e));
      && t.error.None? && ValidCatalog(t.db.catalog) && SettledEntry(t.db.catalog, e)
      && Run(t, rest) == Run(s, ImportCategory(e) + rest)
  {
    RanHalves(s, ImportCategory(e), rest);
    RanNoRaise(s, ImportCategory(e));
    assert e.id.Missing? || e.name.Missing? ==> Raise(KeyError) in ImportCategory(e);
    var one := OpenCategory(e.id.Get(), e.name.Get());
    assert ImportCategory(e) == [one] + [Tally(Categories)];
    RanFirst(s, one, [Tally(Categories)]);
    ImportStmtKeeps(s, one);
    assert [Tally(Categories)] == [Tally(Categories)] + [];
    RanFirst(Exec(s, one), Tally(Categories), []);
  }

  lemma {:induction false} CategoriesSettle(s: Session, es: seq<CategoryEntry>)
    requires s.error.None? && ValidCatalog(s.db.catalog) && Run(s, ImportCategories(es)).error.None?
    ensures var t := Run(s, ImportCategories(es));
      ValidCatalog(t.db.catalog) && Extends(s.db.catalog, t.db.catalog) && forall e :: e in es ==> SettledEntry(t.db.catalog, e)
    decreases |es|
  {
    ImportCategoriesBody(es);
    ImportKeeps(s, ImportCategories(es));
    if es != [] {
      CategorySettles(s, es[0], ImportCategories(es[1..]));
      var u := Run(s, ImportCategory(es[0]));
      CategoriesSettle(u, es[1..]);
      assert Run(u, ImportCategories(es[1..])) == Run(s, ImportCategories(es));
      EntryPersists(u.db.catalog, Run(s, ImportCategories(es)).db.catalog, es[0]);
      assert es == [es[0]] + es[1..];
    }
  }

  lemma EntryPersists(c: Catalog, d: Catalog, e: CategoryEntry)
    requires Extends(c, d) && SettledEntry(c, e)
    ensures SettledEntry(d, e)
  {
    if e.id.Given? {
      var k := e.id.value;
      assert k in c.categories.rows;
      assert k in d.categories.rows;
    }
  }
}
