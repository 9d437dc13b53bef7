/** What a successful `do_import` does to price lists: a function of the old list and the file's goods. */
module ImportPublishes {
  import opened Prelude
  import opened Tables
  import opened Orm
  import opened Programs
  import opened PriceView
  import opened LoadResult
  import opened ImportFrame
  import opened ImportAgain
  import opened ImportSettles
  import opened ImportSuccess
  import opened ImportTwice

  // ---------- Reference definition ----------

  /** One good patches name, price, quantity and parameters of a listed offer; model and recommended price stay. */
  ghost function Restock(prices: Prices, g: Good): Prices {
    if g.name.Given? && g.id.Given? && g.id.value in prices && NotNegative(g.price.GetOr(0)) && NotNegative(g.quantity.GetOr(0))
    then prices[g.id.value := PatchedOffer(prices[g.id.value], g)]
    else prices
  }

  ghost function Restocked(prices: Prices, gs: seq<Good>): Prices {
    if gs == [] then prices else Restock(Restocked(prices, gs[..|gs|-1]), gs[|gs|-1])
  }

  // ---------- The goods loop ----------

  lemma ListedInView(c: Catalog, r: Regs, a: Abs, g: Good)
    requires Core(c) && Match(c, r, a) && g.id.Given? && InfosAt(c.infos.rows, r.shop, g.id.value) != {}
    ensures g.id.value in Of(a.view, a.shop)
  {
    ListIsView(c, r, a);
    ListedRow(c, r.shop, g.id.value, Any(InfosAt(c.infos.rows, r.shop, g.id.value)));
  }

  lemma GoodRestocks(s: Session, a: Abs, g: Good)
    requires s.error.None? && ValidCatalog(s.db.catalog) && Match(s.db.catalog, s.regs, a) && Run(s, ImportGood(g)).error.None?
    ensures var b := AbsRun(a, ImportGood(g));
      && b.shop == a.shop && Elsewhere(a.view, b.view, a.shop)
      && Of(b.view, a.shop) == Restock(Of(a.view, a.shop), g)
  {
    GoodImports(s, g);
    ListedInView(s.db.catalog, s.regs, a, g);
    AbsImportGood(a, g);
  }

  lemma {:induction false} GoodsRestock(s: Session, a: Abs, gs: seq<Good>)
    requires s.error.None? && ValidCatalog(s.db.catalog) && Match(s.db.catalog, s.regs, a) && Run(s, ImportGoods(gs)).error.None?
    ensures var b := AbsRun(a, ImportGoods(gs));
      && b.shop == a.shop && Elsewhere(a.view, b.view, a.shop)
      && Of(b.view, a.shop) == Restocked(Of(a.view, a.shop), gs)
    decreases |gs|
  {
    if gs != [] {
      var init, g := gs[..|gs|-1], gs[|gs|-1];
      ImportGoodsSnoc(gs);
      RanHalves(s, ImportGoods(init), ImportGood(g));
      GoodsSettle(s, a, init);
      GoodsRestock(s, a, init);
      var m := AbsRun(a, ImportGoods(init));
      GoodRestocks(Run(s, ImportGoods(init)), m, g);
      AbsRunAppend(a, ImportGoods(init), ImportGood(g));
      forall t | t != a.shop ensures Of(a.view, t) == Of(AbsRun(m, ImportGood(g)).view, t) {
        assert Of(a.view, t) == Of(m.view, t);
      }
    }
  }

  // ---------- The whole import ----------

  predicate Invisible(st: Stmt) {
    st.OpenShop? || st.OpenCategory? || st.Tally? || st.Raise?
  }

  lemma ShowsNothing(s: Session, st: Stmt)
    requires Invisible(st)
    ensures ViewOf(Exec(s, st).db.catalog) == ViewOf(s.db.catalog)
  {
    SameView(s.db.catalog, Exec(s, st).db.catalog);
  }

  lemma {:induction false} HeadShowsNothing(s: Session, p: seq<Stmt>)
    requires forall st :: st in p ==> Invisible(st)
    ensures ViewOf(Run(s, p).db.catalog) == ViewOf(s.db.catalog)
    decreases |p|
  {
    if p != [] && s.error.None? {
      assert p[0] in p;
      ShowsNothing(s, p[0]);
      HeadShowsNothing(Exec(s, p[0]), p[1..]);
    }
  }

  /**
   A successful `do_import`: the list of the shop that bears the file's name is the old one, patched
   good by good; the list of every other shop is what it was.
   */
  lemma ImportPublishesPatches(db: Db, f: PriceFile, task: Id)
    requires ValidCatalog(db.catalog) && Run(Begin(db), ImportProgram(f, task)).error.None?
    ensures var t := Run(Begin(db), ImportProgram(f, task)); var d, shop := t.db.catalog, t.regs.shop;
      && shop in d.shops.rows && Some(d.shops.rows[shop].name) == f.shop.GetOr("Default Shop")
      && PriceList(d, shop) == Restocked(PriceList(db.catalog, shop), OrEmpty(f.goods))
      && forall other | other != shop :: PriceList(d, other) == PriceList(db.catalog, other)
  {
    var s, head, tail, gs := Begin(db), ImportHead(f), ImportTail(f), OrEmpty(f.goods);
    ImportSettlesStore(db, f, task);
    RanHalves(s, head + tail, [Finish(task)]);
    RanHalves(s, head, tail);
    var u := Run(s, head);
    HeadSettles(db, f);
    ImportCategoriesBody(OrEmpty(f.categories));
    HeadShowsNothing(s, head);
    RanNoRaise(u, tail);
    assert f.goods.Null? ==> Raise(TypeError) in tail;
    var a := AbsOf(u.db.catalog, u.regs);
    GoodsSettle(u, a, gs);
    GoodsRestock(u, a, gs);
    var t := Run(u, tail);
    FinishRuns(t, task);
    PriceListIsView(db.catalog, u.regs.shop);
    ListsFromViews(u.db.catalog, t.db.catalog, u.regs.shop);
    forall other | other != u.regs.shop ensures PriceList(t.db.catalog, other) == PriceList(db.catalog, other) {
      PriceListIsView(db.catalog, other);
      PriceListIsView(u.db.catalog, other);
    }
  }
}
