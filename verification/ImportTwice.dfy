/**
 After one success the store agrees with the file, but a category entry with a null id makes a new
 category every time.  Hence a second run changes nothing exactly when there is no such entry.
 */
module ImportTwice {
  import opened Prelude
  import opened Tables
  import opened Orm
  import opened Programs
  import opened PriceView
  import opened LoadResult
  import opened ImportFrame
  import opened ImportResult
  import opened ImportAgain
  import opened ImportCounts
  import opened ImportSettles

  // ---------- After one success ----------

  /** In step, but for category entries with a null id. */
  ghost predicate Settled(c: Catalog, f: PriceFile, shop: Id) {
    && f.shop != Null && f.categories != Null && f.goods != Null
    && shop in c.shops.rows && Some(c.shops.rows[shop].name) == f.shop.GetOr("Default Shop")
    && (forall e :: e in OrEmpty(f.categories) ==> SettledEntry(c, e))
    && AllSupported(c, OrEmpty(f.goods))
    && AgreesWith(PriceList(c, shop), OrEmpty(f.goods))
  }

  predicate NoNullIds(f: PriceFile) {
    forall e :: e in OrEmpty(f.categories) ==> !NullId(e)
  }

  lemma HeadSettles(db: Db, f: PriceFile)
    requires ValidCatalog(db.catalog) && Run(Begin(db), ImportHead(f)).error.None?
    ensures var t := Run(Begin(db), ImportHead(f));
      && f.shop != Null && f.categories != Null && ValidCatalog(t.db.catalog)
      && t.regs.shop in t.db.catalog.shops.rows && Some(t.db.catalog.shops.rows[t.regs.shop].name) == f.shop.GetOr("Default Shop")
      && forall e :: e in OrEmpty(f.categories) ==> SettledEntry(t.db.catalog, e)
  {
    var s, es := Begin(db), OrEmpty(f.categories);
    RanNoRaise(s, ImportHead(f));
    assert f.categories.Null? ==> Raise(TypeError) in ImportHead(f);
    var one := OpenShop(f.shop.GetOr("Default Shop"), None);
    assert ImportHead(f) == [one] + ImportCategories(es);
    RanFirst(s, one, ImportCategories(es));
    var s1 := Exec(s, one);
    ImportStmtKeeps(s, one);
    if s1.db.catalog == db.catalog { assert s1.regs.shop in ShopsNamed(db.catalog.shops.rows, one.shopName.value); }
    ImportCategoriesBody(es);
    RunKeepsShop(s1, ImportCategories(es));
    CategoriesSettle(s1, es);
  }

  lemma ImportSettlesStore(db: Db, f: PriceFile, task: Id)
    requires ValidCatalog(db.catalog) && Run(Begin(db), ImportProgram(f, task)).error.None?
    ensures var t := Run(Begin(db), ImportProgram(f, task));
      ValidCatalog(t.db.catalog) && Settled(t.db.catalog, f, t.regs.shop) && t.regs.stats == CountsOf(f)
  {
    var s := Begin(db);
    var p, q := ImportHead(f), ImportTail(f);
    RanHalves(s, p + q, [Finish(task)]);
    RanHalves(s, p, q);
    HeadSettles(db, f);
    var u := Run(s, p);
    RanNoRaise(s, p + q);
    assert f.goods.Null? ==> Raise(TypeError) in q;
    GoodsSettle(u, AbsOf(u.db.catalog, u.regs), OrEmpty(f.goods));
    ImportGoodsBody(OrEmpty(f.goods));
    ImportKeeps(u, q);
    var t := Run(u, q);
    forall e | e in OrEmpty(f.categories) ensures SettledEntry(t.db.catalog, e) { EntryPersists(u.db.catalog, t.db.catalog, e); }
    FinishRuns(t, task);
    ImportStats(db, f, task);
  }

  lemma ImportStats(db: Db, f: PriceFile, task: Id)
    requires Run(Begin(db), ImportProgram(f, task)).error.None?
    ensures Run(Begin(db), ImportProgram(f, task)).regs.stats == CountsOf(f)
  {
    RanNoRaise(Begin(db), ImportProgram(f, task));
    var t := Run(Begin(db), ImportProgram(f, task)).regs.stats;
    forall k: Kind ensures Counter(t, k) == Counter(CountsOf(f), k) {
      RunCounts(Begin(db), ImportProgram(f, task), k);
      ProgramCount(f, task, k);
    }
    assert Counter(t, Products) == t.products && Counter(t, Categories) == t.categories && Counter(t, Parameters) == t.parameters;
    assert Counter(CountsOf(f), Products) == CountsOf(f).products && Counter(CountsOf(f), Categories) == CountsOf(f).categories &&
      Counter(CountsOf(f), Parameters) == CountsOf(f).parameters;
  }

  // ---------- The second run ----------

  /** Settled entries run again without error, and make a new category exactly for a null id. */
  lemma {:induction false} CategoriesAgain(s: Session, es: seq<CategoryEntry>)
    requires s.error.None? && ValidCatalog(s.db.catalog) && forall e :: e in es ==> SettledEntry(s.db.catalog, e)
    ensures var t := Run(s, ImportCategories(es));
      && t.error.None? && s.db.catalog.categories.next <= t.db.catalog.categories.next
      && ((exists e :: e in es && NullId(e)) ==> s.db.catalog.categories.next < t.db.catalog.categories.next)
    decreases |es|
  {
    if es != [] {
      var e, rest := es[0], ImportCategories(es[1..]);
      assert e in es && es == [e] + es[1..];
      var one := OpenCategory(e.id.Get(), e.name.Get());
      assert ImportCategories(es) == [one] + ([Tally(Categories)] + rest);
      RunStep(s, one, [Tally(Categories)] + rest);
      var s1 := Exec(s, one);
      RunStep(s1, Tally(Categories), rest);
      ImportStmtKeeps(s, one);
      ImportStmtFrame(s, one);
      var s2 := Exec(s1, Tally(Categories));
      forall x | x in es[1..] ensures SettledEntry(s2.db.catalog, x) { EntryPersists(s.db.catalog, s2.db.catalog, x); }
      CategoriesAgain(s2, es[1..]);
    }
  }

  /** A null id makes the second run write, whether or not it then gets to its end. */
  lemma NullIdsGrow(db: Db, f: PriceFile, shop: Id, task: Id)
    requires ValidCatalog(db.catalog) && Settled(db.catalog, f, shop) && !NoNullIds(f)
    ensures db.catalog.categories.next < Run(Begin(db), ImportProgram(f, task)).db.catalog.categories.next
  {
    var s, c, es := Begin(db), db.catalog, OrEmpty(f.categories);
    var one := OpenShop(f.shop.GetOr("Default Shop"), None);
    var rest := ImportTail(f) + [Finish(task)];
    assert ImportProgram(f, task) == [one] + (ImportCategories(es) + rest);
    RunStep(s, one, ImportCategories(es) + rest);
    OneShop(c, c.shops.rows[shop].name);
    assert shop in ShopsNamed(c.shops.rows, c.shops.rows[shop].name);
    var s1 := Exec(s, one);
    assert s1 == s.(regs := s.regs.(shop := shop));
    RunAppend(s1, ImportCategories(es), rest);
    CategoriesAgain(s1, es);
    ImportCategoriesBody(es);
    ImportKeeps(s1, ImportCategories(es));
    ImportGoodsBody(OrEmpty(f.goods));
    ImportKeeps(Run(s1, ImportCategories(es)), rest);
  }

  /**
   Idempotence, exactly: after one success, a second run of the same task leaves every table identical
   if and only if no category entry has a null id; and then it succeeds, too.
   */
  lemma ImportTwiceExactly(db: Db, f: PriceFile, task: Id)
    requires ValidCatalog(db.catalog) && Run(Begin(db), ImportProgram(f, task)).error.None?
    ensures var once := Run(Begin(db), ImportProgram(f, task)).db; var twice := Run(Begin(once), ImportProgram(f, task));
      && (twice.db == once <==> NoNullIds(f))
      && (NoNullIds(f) ==> twice.error.None?)
  {
    var t := Run(Begin(db), ImportProgram(f, task));
    ImportSettlesStore(db, f, task);
    if NoNullIds(f) {
      assert forall e :: e in OrEmpty(f.categories) ==> SettledEntry(t.db.catalog, e) && !NullId(e);
      ImportInStep(t.db, f, t.regs.shop, task);
      TaskWritten(db, f, task);
    } else {
      NullIdsGrow(t.db, f, t.regs.shop, task);
    }
  }

  lemma TaskWritten(db: Db, f: PriceFile, task: Id)
    requires Run(Begin(db), ImportProgram(f, task)).error.None?
    ensures Run(Begin(db), ImportProgram(f, task)).db.tasks == Processed(db.tasks, task, CountsOf(f))
  {
    var s, body := Begin(db), ImportHead(f) + ImportTail(f);
    RanHalves(s, body, [Finish(task)]);
    FinishRuns(Run(s, body), task);
    ImportStats(db, f, task);
    ImportGoodsBody(OrEmpty(f.goods));
    ImportCategoriesBody(OrEmpty(f.categories));
    NoFinishKeepsTasks(s, body);
  }

  lemma {:induction false} NoFinishKeepsTasks(s: Session, p: seq<Stmt>)
    requires forall st :: st in p ==> !st.Finish?
    ensures Run(s, p).db.tasks == s.db.tasks
    decreases |p|
  {
    if p != [] && s.error.None? {
      assert p[0] in p;
      NoFinishKeepsTasks(Exec(s, p[0]), p[1..]);
    }
  }

  /** A file of one shop name and one category name, without an id, and no goods. */
  function NullIdFile(shop: string, category: string): PriceFile {
    PriceFile(Given(shop), Given([CategoryEntry(Null, Given(category))]), Given([]))
  }

  lemma NullIdProgram(shop: string, category: string, task: Id)
    ensures ImportProgram(NullIdFile(shop, category), task) ==
      [OpenShop(Some(shop), None), OpenCategory(None, Some(category)), Tally(Categories), Finish(task)]
    ensures !NoNullIds(NullIdFile(shop, category))
  {
    var f := NullIdFile(shop, category);
    assert ImportCategories(f.categories.value) == [OpenCategory(None, Some(category)), Tally(Categories)];
    assert f.categories.value[0] in OrEmpty(f.categories) && NullId(f.categories.value[0]);
  }

  lemma NullIdRuns(shop: string, category: string, task: Id)
    ensures Run(Begin(EMPTY_DB), ImportProgram(NullIdFile(shop, category), task)).error.None?
  {
    NullIdProgram(shop, category, task);
    Nothing(ShopsNamed(EMPTY_DB.catalog.shops.rows, shop));
    FourSteps(Begin(EMPTY_DB), OpenShop(Some(shop), None), OpenCategory(None, Some(category)), Tally(Categories), Finish(task));
  }

  /** The input that shows that plain idempotence fails: one category entry, its id null. */
  lemma NotIdempotent()
    ensures var f := NullIdFile("S", "C");
      var once := Run(Begin(EMPTY_DB), ImportProgram(f, 1)); var twice := Run(Begin(once.db), ImportProgram(f, 1));
      once.error.None? && twice.db != once.db
  {
    NullIdProgram("S", "C", 1);
    NullIdRuns("S", "C", 1);
    ImportTwiceExactly(EMPTY_DB, NullIdFile("S", "C"), 1);
  }
}
