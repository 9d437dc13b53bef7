/**
 How `do_import` fails: at which good, with which list, and exactly when the failure has left no trace.
 Nothing rolls it back, either.
 */
module ImportStops {
  import opened Prelude
  import opened Tables
  import opened Orm
  import opened Programs
  import opened PriceView
  import opened LoadSuccess
  import opened LoadResult
  import opened ImportFrame
  import opened ImportResult
  import opened ImportAgain
  import opened ImportSettles
  import opened ImportSuccess
  import opened ImportPublishes
  import opened ImportFailure

  // ---------- Which goods get through ----------

  ghost function FirstUnmatched(c: Catalog, shop: Id, gs: seq<Good>): (i: nat)
    ensures i <= |gs| && (i < |gs| ==> !Matched(c, shop, gs[i])) && forall k :: 0 <= k < i ==> Matched(c, shop, gs[k])
  {
    if gs == [] || !Matched(c, shop, gs[0]) then 0 else 1 + FirstUnmatched(c, shop, gs[1..])
  }

  /** Everything but the parameters is fine. */
  ghost predicate RowMatched(c: Catalog, shop: Id, g: Good) {
    Matched(c, shop, g.(parameters := Missing))
  }

  /** The goods that are imported in the end: the first ones, and the failing one's row if only its parameters are bad. */
  ghost function Imported(c: Catalog, shop: Id, gs: seq<Good>): seq<Good> {
    var i := FirstUnmatched(c, shop, gs);
    if i < |gs| && RowMatched(c, shop, gs[i]) then gs[..i] + [Clip(gs[i], 0)] else gs[..i]
  }

  predicate Openable(categories: set<Id>, g: Good) {
    g.category.Given? && g.category.value in categories && g.name.Given?
  }

  // ---------- The failing good ----------

  /** The products after a good whose row cannot be written. */
  ghost function ProductsAfter(c: Catalog, g: Good): Table<Product> {
    if Openable(c.categories.rows.Keys, g) then ProductsWith(c, g.name.value, g.category.value) else c.products
  }

  lemma FindRuns(s: Session, category: Option<int>)
    requires s.error.None?
    ensures var t := Exec(s, FindCategory(category));
      if category.Some? && category.value in s.db.catalog.categories.rows then t == s.(regs := s.regs.(category := category.value))
      else t == s.(error := Some(DoesNotExist))
  {}

  lemma OpenRuns(s: Session, g: Good)
    requires s.error.None? && ValidCatalog(s.db.catalog) && g.category.Given? && g.category.value in s.db.catalog.categories.rows
    ensures var c, t := s.db.catalog, Exec(s, OpenProduct(g.name.Get(), g.category.Get()));
      && (t.error.None? <==> g.name.Given?)
      && t.db == s.db.(catalog := c.(products := ProductsAfter(c, g)))
      && (t.error.None? ==> ValidCatalog(t.db.catalog) && t.regs == s.regs.(product := t.regs.product) && t.regs.product in t.db.catalog.products.rows)
  {
    if g.name.Given? { ProductRuns(s, g.name.value, g.category.value); }
  }

  /** An incomplete good raises after its category or its product. */
  lemma MissingField(s: Session, g: Good)
    requires s.error.None? && ValidCatalog(s.db.catalog) && (g.category.Missing? || g.name.Missing? || g.id.Missing?)
    ensures var c, t := s.db.catalog, Run(s, ImportGood(g));
      t.error.Some? && t.db == s.db.(catalog := c.(products := ProductsAfter(c, g)))
  {
    var one, two, three := FindCategory(g.category.Get()), OpenProduct(g.name.Get(), g.category.Get()), Raise(KeyError);
    if g.category.Missing? {
      RunStep(s, three, []);
      assert ImportGood(g) == [three] + [];
    } else {
      FindRuns(s, g.category.Get());
      var s1 := Exec(s, one);
      if g.name.Missing? {
        assert ImportGood(g) == [one] + ([three] + []);
        RunStep(s, one, [three] + []);
        if s1.error.None? { RunStep(s1, three, []); }
      } else {
        assert ImportGood(g) == [one] + ([two] + ([three] + []));
        RunStep(s, one, [two] + ([three] + []));
        if s1.error.None? {
          OpenRuns(s1, g);
          RunStep(s1, two, [three] + []);
          if Exec(s1, two).error.None? { RunStep(Exec(s1, two), three, []); }
        }
      }
    }
  }

  /** A row that cannot be written. */
  lemma RowFails(s: Session, g: Good)
    requires s.error.None? && ValidCatalog(s.db.catalog) && !RowMatched(s.db.catalog, s.regs.shop, g)
    requires g.category != Missing && g.name != Missing && g.id != Missing
    ensures var c, t := s.db.catalog, Run(s, ImportRow(g));
      t.error.Some? && t.db == s.db.(catalog := c.(products := ProductsAfter(c, g)))
  {
    var one, two, three := ImportRow(g)[0], ImportRow(g)[1], ImportRow(g)[2];
    assert ImportRow(g) == [one] + ([two] + ([three] + [Tally(Products)]));
    RunStep(s, one, [two] + ([three] + [Tally(Products)]));
    FindRuns(s, g.category.Get());
    var s1 := Exec(s, one);
    if s1.error.None? {
      RunStep(s1, two, [three] + [Tally(Products)]);
      OpenRuns(s1, g);
      var s2 := Exec(s1, two);
      if s2.error.None? {
        RunStep(s2, three, [Tally(Products)]);
        if g.id.Given? { OneOffer(s2.db.catalog, s2.regs.shop, g.id.value); }
      }
    }
  }

  /** A good that cannot be imported has opened its product at most, or written its row and no parameter. */
  lemma GoodFails(s: Session, g: Good)
    requires s.error.None? && ValidCatalog(s.db.catalog) && !Matched(s.db.catalog, s.regs.shop, g)
    ensures var c, t := s.db.catalog, Run(s, ImportGood(g));
      && t.error.Some?
      && (RowMatched(c, s.regs.shop, g) ==>
            Run(s, ImportGood(Clip(g, 0))).error.None? && t.db == Run(s, ImportGood(Clip(g, 0))).db)
      && (!RowMatched(c, s.regs.shop, g) ==> t.db == s.db.(catalog := c.(products := ProductsAfter(c, g))))
  {
    if g.category.Missing? || g.name.Missing? || g.id.Missing? {
      MissingField(s, g);
    } else {
      var row, field := ImportRow(g), ImportParameterField(g.id.Get(), g.parameters);
      assert ImportGood(g) == row + field;
      RunAppend(s, row, field);
      if RowMatched(s.db.catalog, s.regs.shop, g) {
        RowImports(s, g.(parameters := Missing));
        assert ImportRow(g.(parameters := Missing)) == row && ImportGood(Clip(g, 0)) == row;
        RunStep(Run(s, row), Raise(AttributeError), []);
        assert field == [Raise(AttributeError)] + [];
      } else {
        RowFails(s, g);
      }
    }
  }

  // ---------- The goods loop ----------

  lemma SameMatched(c: Catalog, d: Catalog, shop: Id, g: Good)
    requires c.categories.rows.Keys == d.categories.rows.Keys
    requires g.id.Given? ==> InfosAt(c.infos.rows, shop, g.id.value) == InfosAt(d.infos.rows, shop, g.id.value)
    ensures Matched(c, shop, g) <==> Matched(d, shop, g)
  {}

  /** Goods that get through change nothing about which others do. */
  lemma {:induction false} MatchedThroughout(s: Session, gs: seq<Good>)
    requires s.error.None? && ValidCatalog(s.db.catalog) && forall g :: g in gs ==> Matched(s.db.catalog, s.regs.shop, g)
    ensures var t := Run(s, ImportGoods(gs));
      && t.error.None? && ValidCatalog(t.db.catalog) && t.regs.shop == s.regs.shop
      && forall h :: Matched(t.db.catalog, t.regs.shop, h) <==> Matched(s.db.catalog, s.regs.shop, h)
    decreases |gs|
  {
    GoodsImport(s, gs);
    if gs != [] {
      assert gs == [gs[0]] + gs[1..];
      RunAppend(s, ImportGood(gs[0]), ImportGoods(gs[1..]));
      GoodImports(s, gs[0]);
      var t := Run(s, ImportGood(gs[0]));
      MatchedStays(s, gs[0], gs[0]);
      forall h ensures Matched(t.db.catalog, t.regs.shop, h) <==> Matched(s.db.catalog, s.regs.shop, h) { MatchedStays(s, gs[0], h); }
      MatchedThroughout(t, gs[1..]);
    }
  }

  lemma SplitImports(gs: seq<Good>, i: nat)
    requires i < |gs|
    ensures ImportGoods(gs) == ImportGoods(gs[..i]) + (ImportGood(gs[i]) + ImportGoods(gs[i+1..]))
  {
    assert gs == gs[..i] + gs[i..] && gs[i..][1..] == gs[i+1..];
    ImportGoodsAppend(gs[..i], gs[i..]);
  }

  /** The run stops at the first good that does not match. */
  lemma StopsAtUnmatched(s: Session, gs: seq<Good>)
    requires s.error.None? && ValidCatalog(s.db.catalog) && FirstUnmatched(s.db.catalog, s.regs.shop, gs) < |gs|
    ensures var c := s.db.catalog; var i := FirstUnmatched(c, s.regs.shop, gs); var u := Run(s, ImportGoods(gs[..i]));
      && u.error.None? && ValidCatalog(u.db.catalog) && u.regs.shop == s.regs.shop
      && Run(s, ImportGoods(gs)) == Run(u, ImportGood(gs[i]))
      && !Matched(u.db.catalog, u.regs.shop, gs[i])
      && (RowMatched(u.db.catalog, u.regs.shop, gs[i]) <==> RowMatched(c, s.regs.shop, gs[i]))
      && u.db.catalog.categories == c.categories
  {
    var c := s.db.catalog;
    var i := FirstUnmatched(c, s.regs.shop, gs);
    assert forall g :: g in gs[..i] ==> Matched(c, s.regs.shop, g);
    MatchedThroughout(s, gs[..i]);
    var u := Run(s, ImportGoods(gs[..i]));
    SplitImports(gs, i);
    RunAppend(s, ImportGoods(gs[..i]), ImportGood(gs[i]) + ImportGoods(gs[i+1..]));
    RunAppend(u, ImportGood(gs[i]), ImportGoods(gs[i+1..]));
    GoodFails(u, gs[i]);
    GoodsOpenNone(gs[..i]);
    KeepsCategories(s, ImportGoods(gs[..i]));
  }

  lemma {:induction false} GoodsOpenNone(gs: seq<Good>)
    ensures forall st :: st in ImportGoods(gs) ==> !st.OpenCategory? && !st.OpenExactCategory?
    decreases |gs|
  {
    if gs != [] {
      ParametersOpenNone(gs[0].id.Get(), OrEmpty(gs[0].parameters));
      GoodsOpenNone(gs[1..]);
    }
  }

  /** What is imported in the end is imported without error. */
  lemma ImportedRuns(s: Session, gs: seq<Good>)
    requires s.error.None? && ValidCatalog(s.db.catalog) && FirstUnmatched(s.db.catalog, s.regs.shop, gs) < |gs|
    ensures var c := s.db.catalog; var i := FirstUnmatched(c, s.regs.shop, gs);
      var u, v, t := Run(s, ImportGoods(gs[..i])), Run(s, ImportGoods(Imported(c, s.regs.shop, gs))), Run(s, ImportGoods(gs));
      && t.error.Some? && v.error.None?
      && t.db == (if RowMatched(c, s.regs.shop, gs[i]) then v.db
                  else v.db.(catalog := v.db.catalog.(products := ProductsAfter(v.db.catalog, gs[i]))))
  {
    var c := s.db.catalog;
    var i := FirstUnmatched(c, s.regs.shop, gs);
    StopsAtUnmatched(s, gs);
    var u := Run(s, ImportGoods(gs[..i]));
    GoodFails(u, gs[i]);
    if RowMatched(c, s.regs.shop, gs[i]) {
      var hs := gs[..i] + [Clip(gs[i], 0)];
      ImportGoodsSnoc(hs);
      assert hs[..i] == gs[..i] && hs[|hs|-1] == Clip(gs[i], 0);
      RunAppend(s, ImportGoods(gs[..i]), ImportGood(Clip(gs[i], 0)));
    }
  }

  lemma FailedGoods(s: Session, gs: seq<Good>)
    requires s.error.None? && ValidCatalog(s.db.catalog) && FirstUnmatched(s.db.catalog, s.regs.shop, gs) < |gs|
    ensures var c, d, shop := s.db.catalog, Run(s, ImportGoods(gs)).db.catalog, s.regs.shop;
      && Of(ViewOf(d), shop) == Restocked(Of(ViewOf(c), shop), Imported(c, shop, gs)) && Elsewhere(ViewOf(c), ViewOf(d), shop)
  {
    var c, shop := s.db.catalog, s.regs.shop;
    var hs, a := Imported(c, shop, gs), AbsOf(c, s.regs);
    ImportedRuns(s, gs);
    GoodsSettle(s, a, hs);
    GoodsRestock(s, a, hs);
    var v := Run(s, ImportGoods(hs));
    ProductsGrow(v.db.catalog, Run(s, ImportGoods(gs)).db.catalog);
  }

  // ---------- The whole import ----------

  /** The shop can be opened and no category entry raises. */
  ghost predicate HeadPasses(c: Catalog, f: PriceFile) {
    f.shop != Null && f.categories != Null && CategoriesImported(c.categories, OrEmpty(f.categories)).Some?
  }

  /** The row that `do_import` opens. */
  ghost function OpenedShop(c: Catalog, f: PriceFile): Id {
    match GetOrCreateShop(c, f.shop.GetOr("Default Shop"), None)
    case Ok(_, id) => id
    case Err(_) => 0
  }

  /** The store that the goods loop starts with, as far as the goods can tell. */
  ghost function WithCategories(c: Catalog, f: PriceFile): Catalog
    requires HeadPasses(c, f)
  {
    c.(categories := CategoriesImported(c.categories, OrEmpty(f.categories)).value)
  }

  lemma {:induction false} SameUnmatched(c: Catalog, d: Catalog, shop: Id, gs: seq<Good>)
    requires c.categories == d.categories && c.infos == d.infos
    ensures FirstUnmatched(c, shop, gs) == FirstUnmatched(d, shop, gs)
    ensures Imported(c, shop, gs) == Imported(d, shop, gs)
    decreases |gs|
  {
    forall g ensures Matched(c, shop, g) <==> Matched(d, shop, g) { SameMatched(c, d, shop, g); }
    if gs != [] { SameUnmatched(c, d, shop, gs[1..]); }
  }

  /** An import that fails does so before its task is marked. */
  lemma FailsInside(db: Db, f: PriceFile, task: Id)
    requires Run(Begin(db), ImportProgram(f, task)).error.Some?
    ensures Run(Begin(db), ImportProgram(f, task)) == Run(Begin(db), ImportHead(f) + ImportTail(f))
    ensures Run(Begin(db), ImportProgram(f, task)) == Run(Run(Begin(db), ImportHead(f)), ImportTail(f))
  {
    var s, body := Begin(db), ImportHead(f) + ImportTail(f);
    RunAppend(s, body, [Finish(task)]);
    RunAppend(s, ImportHead(f), ImportTail(f));
    if Run(s, body).error.None? { FinishRuns(Run(s, body), task); }
  }

  lemma FailedTail(u: Session, f: PriceFile)
    requires u.error.None? && ValidCatalog(u.db.catalog) && Run(u, ImportTail(f)).error.Some?
    ensures Run(u, ImportTail(f)).regs.shop == u.regs.shop
    ensures var c, d, shop, gs := u.db.catalog, Run(u, ImportTail(f)).db.catalog, u.regs.shop, OrEmpty(f.goods);
      && (f.goods != Null ==> FirstUnmatched(c, shop, gs) < |gs|)
      && PriceList(d, shop) == (if f.goods.Null? then PriceList(c, shop) else Restocked(PriceList(c, shop), Imported(c, shop, gs)))
      && (forall other | other != shop :: PriceList(d, other) == PriceList(c, other))
  {
    var gs := OrEmpty(f.goods);
    ImportGoodsBody(gs);
    RunKeepsShop(u, ImportTail(f));
    if f.goods.Null? {
      RunStep(u, Raise(TypeError), []);
      assert ImportTail(f) == [Raise(TypeError)] + [];
    } else {
      GoodsImport(u, gs);
      var g :| g in gs && !Matched(u.db.catalog, u.regs.shop, g);
      FailedGoods(u, gs);
      PriceListIsView(u.db.catalog, u.regs.shop);
      ListsFromViews(u.db.catalog, Run(u, ImportGoods(gs)).db.catalog, u.regs.shop);
    }
  }

  /**
   How a failing `do_import` ends.  If no good is reached all lists are what they were.  Otherwise the
   shop's list is the old one patched by the goods before the failing one, with the failing one's row if
   only its parameters are bad; the failing one is the first that the store does not match.
   */
  lemma FailedImport(db: Db, f: PriceFile, task: Id)
    requires ValidCatalog(db.catalog) && Run(Begin(db), ImportProgram(f, task)).error.Some?
    ensures var c, t := db.catalog, Run(Begin(db), ImportProgram(f, task)); var d, shop, gs := t.db.catalog, t.regs.shop, OrEmpty(f.goods);
      && ValidCatalog(d)
      && (forall other | other != shop :: PriceList(d, other) == PriceList(c, other))
      && (!HeadPasses(c, f) || f.goods.Null? ==> PriceList(d, shop) == PriceList(c, shop))
      && (HeadPasses(c, f) && f.goods != Null ==>
            && FirstUnmatched(WithCategories(c, f), shop, gs) < |gs|
            && PriceList(d, shop) == Restocked(PriceList(c, shop), Imported(WithCategories(c, f), shop, gs)))
  {
    var c, s, head := db.catalog, Begin(db), ImportHead(f);
    ImportProgramStmts(f, task);
    ImportKeeps(s, ImportProgram(f, task));
    FailsInside(db, f, task);
    ImportHeadSucceeds(db, f);
    assert head[..|head|] == head;
    HeadCut(db, f, |head|);
    var u := Run(s, head);
    SameLists(c, u.db.catalog);
    if u.error.None? {
      FailedTail(u, f);
      SameUnmatched(u.db.catalog, WithCategories(c, f), u.regs.shop, OrEmpty(f.goods));
    }
  }

  // ---------- Failing without a trace ----------

  predicate Known(categories: set<Id>, e: CategoryEntry) {
    e.id.Given? && e.id.value in categories && e.name != Missing
  }

  function FirstUnknown(categories: set<Id>, es: seq<CategoryEntry>): (n: nat)
    ensures n <= |es| && (n < |es| ==> !Known(categories, es[n])) && forall k :: 0 <= k < n ==> Known(categories, es[k])
  {
    if es == [] || !Known(categories, es[0]) then 0 else 1 + FirstUnknown(categories, es[1..])
  }

  /** An entry that is not known raises instead of making a category. */
  predicate Raises(e: CategoryEntry) {
    e.id.Missing? || !e.name.Given?
  }

  /** The goods up to the failing one say what the store says, and the failing one opens no new product. */
  ghost predicate GoodsChangeNothing(c: Catalog, shop: Id, gs: seq<Good>) {
    var i, hs := FirstUnmatched(c, shop, gs), Imported(c, shop, gs);
    && AllSupported(c, hs) && AgreesWith(PriceList(c, shop), hs)
    && (i < |gs| && !RowMatched(c, shop, gs[i]) && Openable(c.categories.rows.Keys, gs[i]) ==> HasProduct(c, gs[i].name.value))
  }

  ghost predicate ImportsNothing(c: Catalog, f: PriceFile, shop: Id) {
    f.categories.Null? ||
    var es := OrEmpty(f.categories);
    var n := FirstUnknown(c.categories.rows.Keys, es);
    if n < |es| then Raises(es[n]) else f.goods.Null? || GoodsChangeNothing(c, shop, OrEmpty(f.goods))
  }

  ghost predicate ImportLeavesNoTrace(c: Catalog, f: PriceFile) {
    f.shop.Null? ||
    exists shop :: shop in ShopsNamed(c.shops.rows, f.shop.GetOr("Default Shop").value) && ImportsNothing(c, f, shop)
  }

  // ---------- Goods that write nothing ----------

  lemma ProductsOnlyGrow(s: Session, st: Stmt)
    requires ImportStmt(st)
    ensures s.db.catalog.products.next <= Exec(s, st).db.catalog.products.next
  {}

  lemma {:induction false} ProductsGrowThroughout(s: Session, p: seq<Stmt>)
    requires forall st :: st in p ==> ImportStmt(st)
    ensures s.db.catalog.products.next <= Run(s, p).db.catalog.products.next
    decreases |p|
  {
    if p != [] && s.error.None? {
      assert p[0] in p;
      ProductsOnlyGrow(s, p[0]);
      ProductsGrowThroughout(Exec(s, p[0]), p[1..]);
    }
  }

  /** Goods in step with the store leave it identical; goods that leave it identical were in step with it. */
  lemma StepsExactly(s: Session, hs: seq<Good>)
    requires s.error.None? && ValidCatalog(s.db.catalog) && Run(s, ImportGoods(hs)).error.None?
    ensures Run(s, ImportGoods(hs)).db == s.db <==> AllSupported(s.db.catalog, hs) && AgreesWith(PriceList(s.db.catalog, s.regs.shop), hs)
  {
    if AllSupported(s.db.catalog, hs) && AgreesWith(PriceList(s.db.catalog, s.regs.shop), hs) {
      TailInStep(s, hs);
    }
    GoodsSettle(s, AbsOf(s.db.catalog, s.regs), hs);
  }

  lemma GoodsUnchangedExactly(s: Session, gs: seq<Good>)
    requires s.error.None? && ValidCatalog(s.db.catalog) && FirstUnmatched(s.db.catalog, s.regs.shop, gs) < |gs|
    ensures Run(s, ImportGoods(gs)).db == s.db <==> GoodsChangeNothing(s.db.catalog, s.regs.shop, gs)
  {
    var c, shop := s.db.catalog, s.regs.shop;
    var i, hs := FirstUnmatched(c, shop, gs), Imported(c, shop, gs);
    ImportedRuns(s, gs);
    StepsExactly(s, hs);
    var v := Run(s, ImportGoods(hs));
    ImportGoodsBody(hs);
    ProductsGrowThroughout(s, ImportGoods(hs));
    if !RowMatched(c, shop, gs[i]) {
      GoodsOpenNone(hs);
      KeepsCategories(s, ImportGoods(hs));
      ProductsDiffer(s.db, v.db, gs[i]);
    }
  }

  /** A product that was opened anew cannot be undone. */
  lemma ProductsDiffer(db: Db, v: Db, g: Good)
    requires db.catalog.products.next <= v.catalog.products.next && v.catalog.categories == db.catalog.categories
    ensures v.(catalog := v.catalog.(products := ProductsAfter(v.catalog, g))) == db <==>
      v == db && (Openable(db.catalog.categories.rows.Keys, g) ==> HasProduct(db.catalog, g.name.value))
  {
    var w := v.(catalog := v.catalog.(products := ProductsAfter(v.catalog, g)));
    if w == db {
      assert ProductsAfter(v.catalog, g) == db.catalog.products;
      assert ProductsAfter(v.catalog, g) == v.catalog.products;
      assert w == v;
    }
  }

  // ---------- Categories that write nothing ----------

  lemma {:induction false} ImportCategoriesAppend(es: seq<CategoryEntry>, xs: seq<CategoryEntry>)
    ensures ImportCategories(es + xs) == ImportCategories(es) + ImportCategories(xs)
    decreases |es|
  {
    if es == [] {
      assert es + xs == xs;
    } else {
      assert (es + xs)[1..] == es[1..] + xs;
      ImportCategoriesAppend(es[1..], xs);
    }
  }

  /** An entry that is not known: it raises, or its new row stays. */
  lemma UnknownEntry(s: Session, e: CategoryEntry, rest: seq<Stmt>)
    requires s.error.None? && ValidCatalog(s.db.catalog) && !Known(s.db.catalog.categories.rows.Keys, e)
    requires forall st :: st in rest ==> ImportStmt(st)
    ensures Run(s, ImportCategory(e) + rest).db == s.db <==> Raises(e)
  {
    var c := s.db.catalog;
    if e.id.Missing? || e.name.Missing? {
      RunStep(s, Raise(KeyError), rest);
      assert ImportCategory(e) + rest == [Raise(KeyError)] + rest;
    } else {
      var one := OpenCategory(e.id.Get(), e.name.Get());
      assert ImportCategory(e) + rest == [one] + ([Tally(Categories)] + rest);
      RunStep(s, one, [Tally(Categories)] + rest);
      var s1 := Exec(s, one);
      if s1.error.None? {
        ImportStmtKeeps(s, one);
        ImportKeeps(s1, [Tally(Categories)] + rest);
        var k := s1.regs.category;
        assert k in s1.db.catalog.categories.rows && k !in c.categories.rows;
      }
    }
  }

  lemma Regroup(p: seq<Stmt>, q: seq<Stmt>, r: seq<Stmt>, t: seq<Stmt>)
    ensures (p + (q + r)) + t == p + (q + (r + t))
  {}

  lemma SplitEntries(es: seq<CategoryEntry>, n: nat, rest: seq<Stmt>)
    requires n < |es|
    ensures ImportCategories(es) + rest == ImportCategories(es[..n]) + (ImportCategory(es[n]) + (ImportCategories(es[n+1..]) + rest))
  {
    assert es == es[..n] + es[n..] && es[n..][1..] == es[n+1..];
    ImportCategoriesAppend(es[..n], es[n..]);
    Regroup(ImportCategories(es[..n]), ImportCategory(es[n]), ImportCategories(es[n+1..]), rest);
  }

  /** Known entries write nothing. */
  lemma KnownPrefixRuns(s: Session, es: seq<CategoryEntry>)
    requires s.error.None?
    ensures var n := FirstUnknown(s.db.catalog.categories.rows.Keys, es); var u := Run(s, ImportCategories(es[..n]));
      u.error.None? && u.db == s.db && u.regs.shop == s.regs.shop
  {
    var n := FirstUnknown(s.db.catalog.categories.rows.Keys, es);
    assert forall e :: e in es[..n] ==> Known(s.db.catalog.categories.rows.Keys, e);
    KnownCategoriesRun(s, es[..n]);
  }

  lemma CategoriesUnchangedExactly(s: Session, es: seq<CategoryEntry>, rest: seq<Stmt>)
    requires s.error.None? && ValidCatalog(s.db.catalog) && forall st :: st in rest ==> ImportStmt(st)
    ensures var n := FirstUnknown(s.db.catalog.categories.rows.Keys, es);
      && (n < |es| ==> (Run(s, ImportCategories(es) + rest).db == s.db <==> Raises(es[n])))
      && (n == |es| ==>
            var u := Run(s, ImportCategories(es));
            u.error.None? && u.db == s.db && u.regs.shop == s.regs.shop && Run(s, ImportCategories(es) + rest) == Run(u, rest))
  {
    var n := FirstUnknown(s.db.catalog.categories.rows.Keys, es);
    KnownPrefixRuns(s, es);
    if n < |es| {
      var later := ImportCategories(es[n+1..]) + rest;
      SplitEntries(es, n, rest);
      RunAppend(s, ImportCategories(es[..n]), ImportCategory(es[n]) + later);
      ImportCategoriesBody(es[n+1..]);
      UnknownEntry(Run(s, ImportCategories(es[..n])), es[n], later);
    } else {
      assert es[..n] == es;
      RunAppend(s, ImportCategories(es), rest);
    }
  }

  // ---------- Main results ----------

  /** A shop that had to be created stays. */
  lemma MiddleOpensNoShop(f: PriceFile, task: Id)
    ensures forall st :: st in ImportMiddle(f) + (ImportTail(f) + [Finish(task)]) ==> BodyStmt(st)
  {
    ImportGoodsBody(OrEmpty(f.goods));
    ImportCategoriesBody(OrEmpty(f.categories));
  }

  lemma NewShopStays(db: Db, f: PriceFile, task: Id)
    requires ValidCatalog(db.catalog) && f.shop != Null && ShopsNamed(db.catalog.shops.rows, f.shop.GetOr("Default Shop").value) == {}
    ensures Run(Begin(db), ImportProgram(f, task)).db != db
  {
    var s, one, rest := Begin(db), OpenShop(f.shop.GetOr("Default Shop"), None), ImportMiddle(f) + (ImportTail(f) + [Finish(task)]);
    ImportUnfolds(f, task);
    RunStep(s, one, rest);
    MiddleOpensNoShop(f, task);
    RunKeepsShop(Exec(s, one), rest);
    assert Exec(s, one).db.catalog.shops.next == db.catalog.shops.next + 1;
  }

  /** The rest of an import whose shop is there. */
  lemma MiddleUnchangedExactly(s: Session, f: PriceFile)
    requires s.error.None? && ValidCatalog(s.db.catalog) && Run(s, ImportMiddle(f) + ImportTail(f)).error.Some?
    ensures Run(s, ImportMiddle(f) + ImportTail(f)).db == s.db <==> ImportsNothing(s.db.catalog, f, s.regs.shop)
  {
    var es := OrEmpty(f.categories);
    if f.categories.Null? {
      RunStep(s, Raise(TypeError), ImportTail(f));
    } else {
      ImportGoodsBody(OrEmpty(f.goods));
      CategoriesUnchangedExactly(s, es, ImportTail(f));
      if FirstUnknown(s.db.catalog.categories.rows.Keys, es) == |es| {
        TailUnchangedExactly(Run(s, ImportCategories(es)), f);
      }
    }
  }

  lemma OpensKnown(db: Db, name: string, shop: Id)
    requires ValidCatalog(db.catalog) && shop in ShopsNamed(db.catalog.shops.rows, name)
    ensures Exec(Begin(db), OpenShop(Some(name), None)) == Session(db, START.(shop := shop), None)
  {
    OneShop(db.catalog, name);
  }

  lemma OpenThenRest(f: PriceFile)
    ensures ImportHead(f) + ImportTail(f) == [OpenShop(f.shop.GetOr("Default Shop"), None)] + (ImportMiddle(f) + ImportTail(f))
  {}

  lemma FailsAfterOpening(db: Db, f: PriceFile, task: Id, shop: Id)
    requires ValidCatalog(db.catalog) && Run(Begin(db), ImportProgram(f, task)).error.Some?
    requires f.shop != Null && shop in ShopsNamed(db.catalog.shops.rows, f.shop.GetOr("Default Shop").value)
    ensures Run(Begin(db), ImportProgram(f, task)) ==
      Run(Session(db, START.(shop := shop), None), ImportMiddle(f) + ImportTail(f))
  {
    var one := OpenShop(f.shop.GetOr("Default Shop"), None);
    FailsInside(db, f, task);
    OpenThenRest(f);
    RunStep(Begin(db), one, ImportMiddle(f) + ImportTail(f));
    OpensKnown(db, one.shopName.value, shop);
  }

  lemma KnownShopUnchangedExactly(db: Db, f: PriceFile, task: Id, shop: Id)
    requires ValidCatalog(db.catalog) && Run(Begin(db), ImportProgram(f, task)).error.Some?
    requires f.shop != Null && shop in ShopsNamed(db.catalog.shops.rows, f.shop.GetOr("Default Shop").value)
    ensures Run(Begin(db), ImportProgram(f, task)).db == db <==> ImportsNothing(db.catalog, f, shop)
  {
    FailsAfterOpening(db, f, task, shop);
    MiddleUnchangedExactly(Session(db, START.(shop := shop), None), f);
  }

  lemma TailUnchangedExactly(u: Session, f: PriceFile)
    requires u.error.None? && ValidCatalog(u.db.catalog) && Run(u, ImportTail(f)).error.Some?
    ensures Run(u, ImportTail(f)).db == u.db <==> f.goods.Null? || GoodsChangeNothing(u.db.catalog, u.regs.shop, OrEmpty(f.goods))
  {
    if f.goods.Null? {
      RunStep(u, Raise(TypeError), []);
      assert ImportTail(f) == [Raise(TypeError)] + [];
    } else {
      FailedTail(u, f);
      GoodsUnchangedExactly(u, OrEmpty(f.goods));
    }
  }

  /** The database after a failing `do_import` is the one before it if and only if it had nothing new to write. */
  lemma FailedImportUnchangedExactly(db: Db, f: PriceFile, task: Id)
    requires ValidCatalog(db.catalog) && Run(Begin(db), ImportProgram(f, task)).error.Some?
    ensures Run(Begin(db), ImportProgram(f, task)).db == db <==> ImportLeavesNoTrace(db.catalog, f)
  {
    if f.shop.Null? {
      var one, rest := OpenShop(None, None), ImportMiddle(f) + (ImportTail(f) + [Finish(task)]);
      ImportUnfolds(f, task);
      RunStep(Begin(db), one, rest);
    } else {
      var named := ShopsNamed(db.catalog.shops.rows, f.shop.GetOr("Default Shop").value);
      if named == {} {
        NewShopStays(db, f, task);
        assert forall shop :: shop !in named;
      } else {
        var shop := Any(named);
        OneShop(db.catalog, f.shop.GetOr("Default Shop").value);
        KnownShopUnchangedExactly(db, f, task, shop);
        assert forall x :: x in named ==> x == shop;
        assert ImportsNothing(db.catalog, f, shop) ==> ImportLeavesNoTrace(db.catalog, f);
      }
    }
  }

  /** An input for which a failed import has saved something: the shop, although the goods are null. */
  lemma ImportFailureSaves(task: Id)
    ensures var f := PriceFile(Given("A"), Given([]), Null); var t := Run(Begin(EMPTY_DB), ImportProgram(f, task));
      t.error.Some? && t.db != EMPTY_DB
  {
    var f := PriceFile(Given("A"), Given([]), Null);
    ImportSucceedsExactly(EMPTY_DB, f, task);
    Nothing(ShopsNamed(EMPTY_DB.catalog.shops.rows, "A"));
    NewShopStays(EMPTY_DB, f, task);
  }
}
