/** Importing a file into a store that is already in step with it succeeds and changes nothing. */
module ImportAgain {
  import opened Prelude
  import opened Tables
  import opened Orm
  import opened Programs
  import opened PriceView
  import opened LoadSuccess
  import opened LoadResult
  import opened ImportResult

  // ---------- In step ----------

  /** A price list that shows, for every id mentioned, the last mention's columns and the last text of each parameter. */
  ghost predicate AgreesWith(prices: Prices, gs: seq<Good>) {
    && (forall ext :: LastFor(gs, ext).Some? ==> ext in prices && SameColumns(prices[ext], LastFor(gs, ext).value))
    && (forall ext, name :: LastTextFor(gs, ext, name).Some? ==>
          ext in prices && name in prices[ext].parameters && prices[ext].parameters[name] == LastTextFor(gs, ext, name).value)
  }

  predicate SameColumns(o: Offer, g: Good) {
    && g.name == Given(o.product)
    && g.price.GetOr(0) == Some(o.price) && 0 <= o.price
    && g.quantity.GetOr(0) == Some(o.quantity) && 0 <= o.quantity
  }

  /** The lookups of one good that a price list does not show. */
  ghost predicate Supported(c: Catalog, g: Good) {
    && g.category.Given? && g.category.value in c.categories.rows
    && g.name.Given? && HasProduct(c, g.name.value) && g.id.Given?
    && g.price != Null && 0 <= g.price.GetOr(0).value && g.quantity != Null && 0 <= g.quantity.GetOr(0).value
    && g.parameters != Null
  }

  ghost predicate AllSupported(c: Catalog, gs: seq<Good>) {
    forall g :: g in gs ==> Supported(c, g)
  }

  ghost predicate KnowsCategories(c: Catalog, es: seq<CategoryEntry>) {
    forall e :: e in es ==> e.id.Given? && e.id.value in c.categories.rows && e.name != Missing
  }

  ghost predicate InStep(c: Catalog, f: PriceFile, shop: Id) {
    && f.shop != Null && f.categories != Null && f.goods != Null
    && shop in c.shops.rows && Some(c.shops.rows[shop].name) == f.shop.GetOr("Default Shop")
    && KnowsCategories(c, OrEmpty(f.categories))
    && AllSupported(c, OrEmpty(f.goods))
    && AgreesWith(PriceList(c, shop), OrEmpty(f.goods))
  }

  // ---------- Mentions ----------

  lemma {:induction false} MentionedGood(gs: seq<Good>, g: Good)
    requires g in gs && g.id.Given?
    ensures LastFor(gs, g.id.value).Some?
    decreases |gs|
  {
    var m := |gs| - 1;
    if gs[m].id != g.id {
      assert gs == gs[..m] + [gs[m]];
      MentionedGood(gs[..m], g);
    }
  }

  lemma {:induction false} MentionedParameter(ps: seq<(string, Scalar)>, p: (string, Scalar))
    requires p in ps
    ensures LastParameter(ps, p.0).Some?
    decreases |ps|
  {
    var m := |ps| - 1;
    if ps[m].0 != p.0 {
      assert ps == ps[..m] + [ps[m]];
      MentionedParameter(ps[..m], p);
    }
  }

  lemma {:induction false} MentionedText(gs: seq<Good>, g: Good, p: (string, Scalar))
    requires g in gs && g.id.Given? && p in OrEmpty(g.parameters)
    ensures LastTextFor(gs, g.id.value, p.0).Some?
    decreases |gs|
  {
    var m := |gs| - 1;
    if gs[m] == g {
      MentionedParameter(OrEmpty(g.parameters), p);
    } else {
      assert gs == gs[..m] + [gs[m]];
      MentionedText(gs[..m], g, p);
    }
  }

  lemma ListedRow(c: Catalog, shop: Id, ext: int, i: Id)
    requires Core(c) && i in InfosAt(c.infos.rows, shop, ext)
    ensures ext in PriceList(c, shop) && PriceList(c, shop)[ext] == OfferOf(c, i)
  {
    RowAt(c, i);
  }

  lemma InStepIsWarm(c: Catalog, shop: Id, gs: seq<Good>)
    requires Core(c) && AllSupported(c, gs) && AgreesWith(PriceList(c, shop), gs)
    ensures Warm(c, shop, gs)
  {
    forall g | g in gs ensures WarmGood(c, shop, g) {
      assert Supported(c, g);
      MentionedGood(gs, g);
      forall i, p | i in InfosAt(c.infos.rows, shop, g.id.value) && p in OrEmpty(g.parameters)
        ensures WarmParameter(c, i, p.0)
      {
        MentionedText(gs, g, p);
        ListedRow(c, shop, g.id.value, i);
        assert p.0 in Texts(c.parameters.rows, c.values.rows, i);
      }
    }
  }

  // ---------- A store in step is not changed ----------

  lemma AgreedRow(c: Catalog, shop: Id, gs: seq<Good>, i: Id)
    requires Core(c) && UniqueProducts(c) && AgreesWith(PriceList(c, shop), gs) && i in c.infos.rows
    ensures PatchedRow(c, shop, gs, c.infos.rows[i]) == c.infos.rows[i]
  {
    var row := c.infos.rows[i];
    if row.shop == shop && LastFor(gs, row.ext).Some? {
      ListedRow(c, shop, row.ext, i);
      var g := LastFor(gs, row.ext).value;
      assert row.product in ProductsNamed(c.products.rows, g.name.value);
      OneProduct(c, g.name.value);
    }
  }

  lemma AgreedValue(c: Catalog, shop: Id, gs: seq<Good>, v: Id)
    requires Core(c) && AgreesWith(PriceList(c, shop), gs) && v in c.values.rows
    ensures PatchedValue(c, shop, gs, c.values.rows[v]) == c.values.rows[v]
  {
    var i, p := c.values.rows[v].info, c.values.rows[v].parameter;
    var row, name := c.infos.rows[i], c.parameters.rows[p].name;
    if row.shop == shop && LastTextFor(gs, row.ext, name).Some? {
      ListedRow(c, shop, row.ext, i);
      ParameterAt(c, p);
      ValueAt(c, v);
      assert TextAt(c.parameters.rows, c.values.rows, i, name) == Some(c.values.rows[v].text);
    }
  }

  lemma AgreedIsFixed(c: Catalog, shop: Id, gs: seq<Good>)
    requires Core(c) && UniqueProducts(c) && AgreesWith(PriceList(c, shop), gs)
    ensures Patched(c, shop, gs) == c
  {
    var d := Patched(c, shop, gs);
    forall i | i in c.infos.rows ensures d.infos.rows[i] == c.infos.rows[i] { AgreedRow(c, shop, gs, i); }
    assert d.infos.rows == c.infos.rows;
    forall v | v in c.values.rows ensures d.values.rows[v] == c.values.rows[v] { AgreedValue(c, shop, gs, v); }
    assert d.values.rows == c.values.rows;
  }

  lemma {:induction false} KnownCategoriesRun(s: Session, es: seq<CategoryEntry>)
    requires s.error.None? && KnowsCategories(s.db.catalog, es)
    ensures var t, n := Run(s, ImportCategories(es)), s.regs.stats;
      t.error.None? && t.db == s.db && t.regs.shop == s.regs.shop && t.regs.stats == n.(categories := n.categories + |es|)
    decreases |es|
  {
    if es != [] {
      assert es[0] in es;
      var one, rest := OpenCategory(es[0].id.Get(), es[0].name.Get()), ImportCategories(es[1..]);
      assert ImportCategories(es) == [one] + ([Tally(Categories)] + rest);
      RunStep(s, one, [Tally(Categories)] + rest);
      RunStep(Exec(s, one), Tally(Categories), rest);
      KnownCategoriesRun(Exec(Exec(s, one), Tally(Categories)), es[1..]);
    }
  }

  /** The counters that a complete import of this file reports. */
  function CountsOf(f: PriceFile): Stats {
    Stats(|OrEmpty(f.goods)|, |OrEmpty(f.categories)|, ParameterCount(OrEmpty(f.goods)))
  }

  /** The task row after success; nothing else of the database is written. */
  function Processed(tasks: Table<Task>, task: Id, counts: Stats): Table<Task> {
    if task in tasks.rows then tasks.Update(task, tasks.rows[task].(processed := true, counts := counts)) else tasks
  }

  lemma HeadInStep(db: Db, f: PriceFile, shop: Id)
    requires ValidCatalog(db.catalog) && InStep(db.catalog, f, shop)
    ensures var t := Run(Begin(db), ImportHead(f));
      t.error.None? && t.db == db && t.regs.shop == shop && t.regs.stats == Stats(0, |OrEmpty(f.categories)|, 0)
  {
    var c, s, es := db.catalog, Begin(db), OrEmpty(f.categories);
    var one := OpenShop(f.shop.GetOr("Default Shop"), None);
    assert ImportHead(f) == [one] + ImportCategories(es);
    RunStep(s, one, ImportCategories(es));
    OneShop(c, c.shops.rows[shop].name);
    assert shop in ShopsNamed(c.shops.rows, c.shops.rows[shop].name);
    var s1 := Exec(s, one);
    assert s1 == s.(regs := s.regs.(shop := shop));
    KnownCategoriesRun(s1, es);
  }

  lemma TailInStep(s: Session, gs: seq<Good>)
    requires ValidCatalog(s.db.catalog) && s.error.None?
    requires AllSupported(s.db.catalog, gs) && AgreesWith(PriceList(s.db.catalog, s.regs.shop), gs)
    ensures var t, n := Run(s, ImportGoods(gs)), s.regs.stats;
      && t.error.None? && t.db == s.db && t.regs.shop == s.regs.shop
      && t.regs.stats == n.(products := n.products + |gs|, parameters := n.parameters + ParameterCount(gs))
  {
    InStepIsWarm(s.db.catalog, s.regs.shop, gs);
    WarmGoodsRun(s.db.catalog, s, gs);
    AgreedIsFixed(s.db.catalog, s.regs.shop, gs);
  }

  lemma FinishRuns(s: Session, task: Id)
    requires s.error.None?
    ensures var t := Run(s, [Finish(task)]);
      t.error.None? && t.db == s.db.(tasks := Processed(s.db.tasks, task, s.regs.stats)) && t.regs == s.regs
  {
    RunStep(s, Finish(task), []);
    assert [Finish(task)] + [] == [Finish(task)];
  }

  /** Importing into a store in step succeeds and leaves the catalogue and the orders identical, row by row. */
  lemma ImportInStep(db: Db, f: PriceFile, shop: Id, task: Id)
    requires ValidCatalog(db.catalog) && InStep(db.catalog, f, shop)
    ensures var t := Run(Begin(db), ImportProgram(f, task));
      t.error.None? && t.db == db.(tasks := Processed(db.tasks, task, CountsOf(f))) && t.regs.shop == shop
  {
    var s := Begin(db);
    HeadInStep(db, f, shop);
    var s1 := Run(s, ImportHead(f));
    TailInStep(s1, OrEmpty(f.goods));
    RunAppend(s, ImportHead(f), ImportTail(f));
    RunAppend(s, ImportHead(f) + ImportTail(f), [Finish(task)]);
    FinishRuns(Run(s1, ImportTail(f)), task);
  }
}
