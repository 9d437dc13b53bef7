/**
 A worker that dies in the middle of `do_import` leaves its task unprocessed, so that it can be queued
 again.  The retry succeeds wherever the first run stopped, and every shop's list is then what one
 undisturbed run would have made of it.
 */
module ImportRetry {
  import opened Prelude
  import opened Tables
  import opened Orm
  import opened Programs
  import opened PriceView
  import opened LoadResult
  import opened Recovery
  import opened ImportFrame
  import opened ImportResult
  import opened ImportSettles
  import opened ImportSuccess
  import opened ImportTwice
  import opened ImportPublishes
  import opened ImportFailure
  import opened ImportStops

  // ---------- Lists that differ only in what the goods overwrite ----------

  ghost predicate Touches(gs: seq<Good>, ext: int) {
    exists g :: g in gs && g.id == Given(ext)
  }

  ghost predicate SetsText(g: Good, name: string) {
    LastParameter(OrEmpty(g.parameters), name).Some?
  }

  ghost predicate Writes(gs: seq<Good>, ext: int, name: string) {
    exists g :: g in gs && g.id == Given(ext) && SetsText(g, name)
  }

  /** Equal but for what goods with this id are going to overwrite. */
  ghost predicate AlikeBut(o: Offer, p: Offer, gs: seq<Good>, ext: int) {
    && o.model == p.model && o.rrc == p.rrc
    && (!Touches(gs, ext) ==> o.product == p.product && o.price == p.price && o.quantity == p.quantity)
    && (forall n | !Writes(gs, ext, n) :: n in o.parameters <==> n in p.parameters)
    && (forall n | !Writes(gs, ext, n) && n in o.parameters && n in p.parameters :: o.parameters[n] == p.parameters[n])
  }

  ghost predicate SameBut(a: Prices, b: Prices, gs: seq<Good>) {
    && (forall e :: e in a <==> e in b)
    && (forall e | e in a && e in b :: AlikeBut(a[e], b[e], gs, e))
  }

  /** Everything that `Restock` asks of a good but that it is listed. */
  predicate Patches(g: Good) {
    g.name.Given? && g.id.Given? && NotNegative(g.price.GetOr(0)) && NotNegative(g.quantity.GetOr(0))
  }

  lemma TouchesCons(g: Good, rest: seq<Good>, ext: int)
    ensures Touches([g] + rest, ext) <==> g.id == Given(ext) || Touches(rest, ext)
    ensures forall n :: Writes([g] + rest, ext, n) <==> (g.id == Given(ext) && SetsText(g, n)) || Writes(rest, ext, n)
  {
    var all := [g] + rest;
    assert g in all && forall h :: h in all <==> h == g || h in rest;
  }

  /** The offer of the good's own id, patched on both sides. */
  lemma PatchedAlike(o: Offer, p: Offer, g: Good, rest: seq<Good>)
    requires Patches(g) && AlikeBut(o, p, [g] + rest, g.id.value)
    ensures AlikeBut(PatchedOffer(o, g), PatchedOffer(p, g), rest, g.id.value)
  {
    TouchesCons(g, rest, g.id.value);
    forall n | !Writes(rest, g.id.value, n)
      ensures var x, y := PatchedOffer(o, g).parameters, PatchedOffer(p, g).parameters;
        (n in x <==> n in y) && (n in x && n in y ==> x[n] == y[n])
    {
      MergeAllShows(o.parameters, OrEmpty(g.parameters), n);
      MergeAllShows(p.parameters, OrEmpty(g.parameters), n);
    }
  }

  lemma RestockAlike(a: Prices, b: Prices, g: Good, rest: seq<Good>)
    requires Patches(g) && SameBut(a, b, [g] + rest)
    ensures SameBut(Restock(a, g), Restock(b, g), rest)
  {
    var x, y := Restock(a, g), Restock(b, g);
    forall e | e in x && e in y ensures AlikeBut(x[e], y[e], rest, e) {
      if e == g.id.value {
        PatchedAlike(a[e], b[e], g, rest);
      } else {
        TouchesCons(g, rest, e);
        assert AlikeBut(a[e], b[e], [g] + rest, e);
      }
    }
  }

  lemma {:induction false} RestockedCons(prices: Prices, g: Good, rest: seq<Good>)
    ensures Restocked(prices, [g] + rest) == Restocked(Restock(prices, g), rest)
    decreases |rest|
  {
    var all := [g] + rest;
    if rest == [] {
      assert all[..0] == [] && all[0] == g;
      assert Restocked(prices, all) == Restock(Restocked(prices, all[..0]), g);
    } else {
      var m := |rest| - 1;
      assert all[..m+1] == [g] + rest[..m] && all[m+1] == rest[m];
      RestockedCons(prices, g, rest[..m]);
    }
  }

  lemma SameOffers(o: Offer, p: Offer, ext: int)
    requires AlikeBut(o, p, [], ext)
    ensures o == p
  {
    assert forall n :: !Writes([], ext, n);
    assert o.parameters == p.parameters;
  }

  lemma NothingLeft(a: Prices, b: Prices)
    requires SameBut(a, b, [])
    ensures a == b
  {
    forall e | e in a && e in b ensures a[e] == b[e] { SameOffers(a[e], b[e], e); }
    assert forall e :: e in a <==> e in b;
  }

  /** What the goods overwrite does not matter in the end. */
  lemma {:induction false} RestockedAlike(a: Prices, b: Prices, gs: seq<Good>)
    requires SameBut(a, b, gs) && forall g :: g in gs ==> Patches(g)
    ensures Restocked(a, gs) == Restocked(b, gs)
    decreases |gs|
  {
    if gs == [] {
      NothingLeft(a, b);
    } else {
      var g, rest := gs[0], gs[1..];
      assert gs == [g] + rest && g in gs;
      RestockAlike(a, b, g, rest);
      RestockedCons(a, g, rest);
      RestockedCons(b, g, rest);
      RestockedAlike(Restock(a, g), Restock(b, g), rest);
    }
  }

  /** A good that overwrites nothing beyond what these goods overwrite. */
  ghost predicate Within(g: Good, gs: seq<Good>) {
    g.id.Given? ==> Touches(gs, g.id.value) && forall n | SetsText(g, n) :: Writes(gs, g.id.value, n)
  }

  lemma RestockWithin(a: Prices, b: Prices, g: Good, gs: seq<Good>)
    requires SameBut(a, b, gs) && Within(g, gs)
    ensures SameBut(Restock(a, g), b, gs)
  {
    var x := Restock(a, g);
    forall e | e in x && e in b ensures AlikeBut(x[e], b[e], gs, e) {
      assert AlikeBut(a[e], b[e], gs, e);
      if x[e] != a[e] {
        forall n | !Writes(gs, e, n)
          ensures (n in x[e].parameters <==> n in a[e].parameters) && (n in x[e].parameters && n in a[e].parameters ==> x[e].parameters[n] == a[e].parameters[n])
        {
          MergeAllShows(a[e].parameters, OrEmpty(g.parameters), n);
        }
      }
    }
  }

  lemma {:induction false} RestockedWithin(prices: Prices, shown: seq<Good>, gs: seq<Good>)
    requires forall g :: g in shown ==> Within(g, gs)
    ensures SameBut(Restocked(prices, shown), prices, gs)
    decreases |shown|
  {
    if shown != [] {
      var init, g := shown[..|shown|-1], shown[|shown|-1];
      assert g in shown;
      RestockedWithin(prices, init, gs);
      RestockWithin(Restocked(prices, init), prices, g, gs);
    }
  }

  lemma {:induction false} FewerTexts(ps: seq<(string, Scalar)>, j: nat, name: string)
    requires j <= |ps| && LastParameter(ps[..j], name).Some?
    ensures LastParameter(ps, name).Some?
    decreases |ps|
  {
    var m := |ps| - 1;
    if j < |ps| {
      assert ps[..m][..j] == ps[..j];
      FewerTexts(ps[..m], j, name);
    } else {
      assert ps[..j] == ps;
    }
  }

  lemma TruncationWithin(shown: seq<Good>, gs: seq<Good>)
    requires Truncation(shown, gs)
    ensures forall g :: g in shown ==> Within(g, gs)
  {
    var i: nat, j: nat :| IsCut(shown, gs, i, j);
    forall g | g in shown ensures Within(g, gs) {
      if g in gs[..i] {
        assert g in gs;
      } else {
        assert gs[i] in gs && g == Clip(gs[i], j);
        forall n | SetsText(g, n) ensures SetsText(gs[i], n) { FewerTexts(OrEmpty(gs[i].parameters), j, n); }
      }
    }
  }

  /** A list patched by a part of the goods and then by all of them. */
  lemma PatchedAgain(prices: Prices, shown: seq<Good>, gs: seq<Good>)
    requires Truncation(shown, gs) && forall g :: g in gs ==> Patches(g)
    ensures Restocked(Restocked(prices, shown), gs) == Restocked(prices, gs)
  {
    TruncationWithin(shown, gs);
    RestockedWithin(prices, shown, gs);
    RestockedAlike(Restocked(prices, shown), prices, gs);
  }

  // ---------- Categories that are imported again ----------

  /** The second table has all ids of the first, and no gap among the ids given out since. */
  ghost predicate Ahead(t: Table<Category>, u: Table<Category>) {
    && t.rows.Keys <= u.rows.Keys && t.next <= u.next && t.Fresh() && u.Fresh()
    && forall x :: t.next <= x < u.next ==> x in u.rows.Keys
  }

  predicate Passes(e: CategoryEntry, ids: set<Id>) {
    e.id != Missing && e.name != Missing && (e.id.Given? ==> e.id.value in ids) && (e.id.Null? ==> e.name.Given?)
  }

  lemma {:induction false} Passed(t: Table<Category>, es: seq<CategoryEntry>)
    requires CategoriesImported(t, es).Some? && t.Fresh()
    ensures var u := CategoriesImported(t, es).value;
      && u.Fresh() && t.rows.Keys <= u.rows.Keys && forall e :: e in es ==> Passes(e, u.rows.Keys)
    decreases |es|
  {
    if es != [] {
      ImportedCons(t, es);
      Passed(CategoriesImported(t, [es[0]]).value, es[1..]);
      assert es == [es[0]] + es[1..];
    }
  }

  /** Entries that the table knows already only give out more ids. */
  lemma {:induction false} PassedAgain(t: Table<Category>, u: Table<Category>, es: seq<CategoryEntry>)
    requires Ahead(t, u) && forall e :: e in es ==> Passes(e, t.rows.Keys)
    ensures CategoriesImported(u, es).Some? && Ahead(t, CategoriesImported(u, es).value)
    decreases |es|
  {
    if es != [] {
      var e := es[0];
      assert e in es && Passes(e, t.rows.Keys);
      if e.id.Null? {
        PassedAgain(t, u.Insert(Category(e.name.value)), es[1..]);
      } else {
        assert e.id.value in u.rows.Keys;
        PassedAgain(t, u, es[1..]);
      }
    }
  }

  /** One entry on both tables. */
  lemma EntryAhead(t: Table<Category>, u: Table<Category>, e: CategoryEntry)
    requires Ahead(t, u) && CategoriesImported(t, [e]).Some?
    ensures CategoriesImported(u, [e]).Some? && Ahead(CategoriesImported(t, [e]).value, CategoriesImported(u, [e]).value)
  {
    assert [e][1..] == [];
    if e.id.Given? && e.id.value !in t.rows {
      var row := Category(e.name.value);
      if e.id.value in u.rows { assert Ahead(t.InsertAt(e.id.value, row), u); }
      else { assert Ahead(t.InsertAt(e.id.value, row), u.InsertAt(e.id.value, row)); }
    } else if e.id.Null? {
      var row := Category(e.name.value);
      assert Ahead(t.Insert(row), u.Insert(row));
    }
  }

  lemma {:induction false} StaysAhead(t: Table<Category>, u: Table<Category>, es: seq<CategoryEntry>)
    requires Ahead(t, u) && CategoriesImported(t, es).Some?
    ensures CategoriesImported(u, es).Some? && Ahead(CategoriesImported(t, es).value, CategoriesImported(u, es).value)
    decreases |es|
  {
    if es != [] {
      ImportedCons(t, es);
      ImportedCons(u, es);
      EntryAhead(t, u, es[0]);
      StaysAhead(CategoriesImported(t, [es[0]]).value, CategoriesImported(u, [es[0]]).value, es[1..]);
    }
  }

  lemma {:induction false} ImportedAppend(t: Table<Category>, es: seq<CategoryEntry>, fs: seq<CategoryEntry>)
    ensures CategoriesImported(t, es + fs) ==
      match CategoriesImported(t, es)
      case None => None
      case Some(u) => CategoriesImported(u, fs)
    decreases |es|
  {
    if es == [] {
      assert es + fs == fs;
    } else {
      assert (es + fs)[1..] == es[1..] + fs && (es + fs)[0] == es[0];
      ImportedCons(t, es + fs);
      ImportedCons(t, es);
      if CategoriesImported(t, [es[0]]).Some? { ImportedAppend(CategoriesImported(t, [es[0]]).value, es[1..], fs); }
    }
  }

  /** After the first i entries, all of them again. */
  lemma AgainFromPart(t: Table<Category>, es: seq<CategoryEntry>, i: nat)
    requires t.Fresh() && i <= |es| && CategoriesImported(t, es).Some?
    ensures CategoriesImported(t, es[..i]).Some?
    ensures var part := CategoriesImported(t, es[..i]).value; var again := CategoriesImported(part, es);
      again.Some? && CategoriesImported(t, es).value.rows.Keys <= again.value.rows.Keys
  {
    assert es == es[..i] + es[i..];
    ImportedAppend(t, es[..i], es[i..]);
    var part := CategoriesImported(t, es[..i]).value;
    Passed(t, es[..i]);
    PassedAgain(part, part, es[..i]);
    ImportedAppend(part, es[..i], es[i..]);
    StaysAhead(part, CategoriesImported(part, es[..i]).value, es[i..]);
  }

  // ---------- The store after a run that stopped ----------

  lemma CutOne(a: Stmt, b: Stmt, rest: seq<Stmt>)
    ensures ([a, b] + rest)[..1] == [a] + []
  {}

  lemma CutTwo(a: Stmt, b: Stmt, rest: seq<Stmt>, k: nat)
    requires 2 <= k <= |rest| + 2
    ensures ([a, b] + rest)[..k] == [a] + ([b] + rest[..k-2])
  {}

  /** An entry whose first statement has run has both keys. */
  lemma FirstEntry(s: Session, es: seq<CategoryEntry>, k: nat)
    requires s.error.None? && es != [] && 0 < k <= |ImportCategories(es)| && Run(s, ImportCategories(es)[..k]).error.None?
    ensures es[0].id != Missing && es[0].name != Missing
    ensures ImportCategories(es) == [OpenCategory(es[0].id.Get(), es[0].name.Get()), Tally(Categories)] + ImportCategories(es[1..])
  {
    var p := ImportCategories(es);
    assert p[..k] == [p[0]] + p[1..k];
    RanFirst(s, p[0], p[1..k]);
  }

  /** Entries in full or one statement of the last: both have written their category. */
  lemma {:induction false} CutCategories(s: Session, es: seq<CategoryEntry>, k: nat) returns (i: nat)
    requires s.error.None? && ValidCatalog(s.db.catalog) && k <= |ImportCategories(es)| && Run(s, ImportCategories(es)[..k]).error.None?
    ensures i <= |es|
    ensures CategoriesImported(s.db.catalog.categories, es[..i]) == Some(Run(s, ImportCategories(es)[..k]).db.catalog.categories)
    decreases |es|
  {
    if k == 0 {
      i := 0;
    } else {
      var e, rest := es[0], ImportCategories(es[1..]);
      FirstEntry(s, es, k);
      EntryImports(s, e);
      var one, two := OpenCategory(e.id.Get(), e.name.Get()), Tally(Categories);
      if k == 1 {
        CutOne(one, two, rest);
        RanFirst(s, one, []);
        i := 1;
        assert es[..1] == [e];
      } else {
        CutTwo(one, two, rest, k);
        RanFirst(s, one, [two] + rest[..k-2]);
        RanFirst(Exec(s, one), two, rest[..k-2]);
        var j := CutCategories(Exec(Exec(s, one), two), es[1..], k - 2);
        i := j + 1;
        assert es[..i][0] == e && es[..i][1..] == es[1..][..j];
        ImportedCons(s.db.catalog.categories, es[..i]);
      }
    }
  }

  /** The shops, and the categories of some of the entries. */
  ghost predicate Begun(c: Catalog, d: Catalog, f: PriceFile, i: nat) {
    && i <= |OrEmpty(f.categories)|
    && CategoriesImported(c.categories, OrEmpty(f.categories)[..i]) == Some(d.categories)
    && GetOrCreateShop(c, f.shop.GetOr("Default Shop"), None).Ok?
    && d.shops == GetOrCreateShop(c, f.shop.GetOr("Default Shop"), None).catalog.shops
  }

  lemma StoppedInHead(db: Db, f: PriceFile, k: nat) returns (i: nat)
    requires ValidCatalog(db.catalog) && f.categories != Null && 0 < k <= |ImportHead(f)| && Run(Begin(db), ImportHead(f)[..k]).error.None?
    ensures Begun(db.catalog, Run(Begin(db), ImportHead(f)[..k]).db.catalog, f, i)
  {
    var s, one, rest := Begin(db), OpenShop(f.shop.GetOr("Default Shop"), None), ImportCategories(OrEmpty(f.categories))[..k-1];
    assert ImportHead(f)[..k] == [one] + rest;
    RanFirst(s, one, rest);
    ImportStmtKeeps(s, one);
    i := CutCategories(Exec(s, one), OrEmpty(f.categories), k - 1);
    ImportCategoriesBody(OrEmpty(f.categories));
    assert forall st :: st in rest ==> st in ImportCategories(OrEmpty(f.categories));
    RunKeepsShop(Exec(s, one), rest);
  }

  /** Nothing after the head opens a shop or a category. */
  lemma StoppedAfterHead(db: Db, f: PriceFile, task: Id, k: nat)
    requires ValidCatalog(db.catalog) && f.categories != Null && f.goods != Null
    requires k <= |ImportTail(f) + [Finish(task)]| && Run(Begin(db), ImportHead(f) + (ImportTail(f) + [Finish(task)])[..k]).error.None?
    ensures Begun(db.catalog, Run(Begin(db), ImportHead(f) + (ImportTail(f) + [Finish(task)])[..k]).db.catalog, f, |OrEmpty(f.categories)|)
  {
    var s, head, all, es := Begin(db), ImportHead(f), ImportTail(f) + [Finish(task)], OrEmpty(f.categories);
    RanHalves(s, head, all[..k]);
    ImportHeadSucceeds(db, f);
    assert head[..|head|] == head && es[..|es|] == es;
    var i := StoppedInHead(db, f, |head|);
    var u := Run(s, head);
    GoodsOpenNone(OrEmpty(f.goods));
    ImportGoodsBody(OrEmpty(f.goods));
    assert forall st :: st in all[..k] ==> st in all;
    KeepsCategories(u, all[..k]);
    RunKeepsShop(u, all[..k]);
  }

  lemma StoppedBegun(db: Db, f: PriceFile, task: Id, k: nat) returns (i: nat)
    requires ValidCatalog(db.catalog) && f.categories != Null && f.goods != Null
    requires 0 < k <= |ImportProgram(f, task)| && Run(Begin(db), ImportProgram(f, task)[..k]).error.None?
    ensures Begun(db.catalog, Run(Begin(db), ImportProgram(f, task)[..k]).db.catalog, f, i)
  {
    var head, all := ImportHead(f), ImportTail(f) + [Finish(task)];
    assert ImportProgram(f, task) == head + all;
    if k <= |head| {
      assert ImportProgram(f, task)[..k] == head[..k];
      i := StoppedInHead(db, f, k);
    } else {
      assert ImportProgram(f, task)[..k] == head + all[..k-|head|];
      StoppedAfterHead(db, f, task, k - |head|);
      i := |OrEmpty(f.categories)|;
    }
  }

  // ---------- The retry ----------

  lemma StillStocked(c: Catalog, d: Catalog, shopName: string, ext: int)
    requires SameRows(c, d) && Extends(c, d) && Stocks(c, shopName, ext)
    ensures Stocks(d, shopName, ext)
  {
    var i :| i in c.infos.rows && c.infos.rows[i].ext == ext && c.infos.rows[i].shop in c.shops.rows &&
             c.shops.rows[c.infos.rows[i].shop].name == shopName;
    assert d.infos.rows[i].ext == ext && d.infos.rows[i].shop == c.infos.rows[i].shop;
  }

  lemma StillReimportable(c: Catalog, d: Catalog, f: PriceFile, i: nat)
    requires ValidCatalog(c) && Reimportable(c, f) && Begun(c, d, f, i) && SameRows(c, d) && Extends(c, d)
    ensures Reimportable(d, f)
  {
    AgainFromPart(c.categories, OrEmpty(f.categories), i);
    var before := CategoriesImported(c.categories, OrEmpty(f.categories)).value.rows.Keys;
    var after := CategoriesImported(d.categories, OrEmpty(f.categories)).value.rows.Keys;
    forall g | g in OrEmpty(f.goods) ensures Acceptable(after, g) && Stocks(d, f.shop.GetOr("Default Shop").value, g.id.value) {
      assert Acceptable(before, g);
      StillStocked(c, d, f.shop.GetOr("Default Shop").value, g.id.value);
    }
  }

  /** The shop that is opened is the one that was opened before. */
  lemma SameShopOpened(c: Catalog, d: Catalog, f: PriceFile, i: nat)
    requires ValidCatalog(c) && ValidCatalog(d) && Begun(c, d, f, i)
    ensures OpenedShop(d, f) == OpenedShop(c, f)
  {
    var name, shop := f.shop.GetOr("Default Shop").value, OpenedShop(c, f);
    OneShop(c, name);
    if Lookup(ShopsNamed(c.shops.rows, name)).One? { assert shop in ShopsNamed(c.shops.rows, name); }
    assert shop in ShopsNamed(d.shops.rows, name);
    assert forall x :: x in ShopsNamed(d.shops.rows, name) ==> x == shop;
    Singleton(ShopsNamed(d.shops.rows, name), shop);
  }

  lemma RunsInto(db: Db, f: PriceFile, task: Id)
    requires ValidCatalog(db.catalog) && Run(Begin(db), ImportProgram(f, task)).error.None?
    ensures f.categories != Null && f.goods != Null && (forall g :: g in OrEmpty(f.goods) ==> Patches(g))
    ensures Run(Begin(db), ImportProgram(f, task)).regs.shop == OpenedShop(db.catalog, f)
  {
    ImportSucceedsExactly(db, f, task);
    var s, head, rest := Begin(db), ImportHead(f), ImportTail(f) + [Finish(task)];
    assert ImportProgram(f, task) == head + rest;
    RanHalves(s, head, rest);
    ImportHeadSucceeds(db, f);
    assert rest[..|rest|] == rest;
    RestKeepsShop(Run(s, head), f, task, |rest|);
  }

  lemma InRest(one: Stmt, rest: seq<Stmt>, k: nat)
    requires 0 < k <= |rest| + 1
    ensures forall st :: st in ([one] + rest)[k..] ==> st in rest
  {}

  lemma AfterOpening(f: PriceFile, task: Id, k: nat)
    requires 0 < k <= |ImportProgram(f, task)|
    ensures forall st :: st in ImportProgram(f, task)[k..] ==> BodyStmt(st)
  {
    ImportUnfolds(f, task);
    ImportGoodsBody(OrEmpty(f.goods));
    ImportCategoriesBody(OrEmpty(f.categories));
    InRest(OpenShop(f.shop.GetOr("Default Shop"), None), ImportMiddle(f) + (ImportTail(f) + [Finish(task)]), k);
  }

  /** A prefix of a run that reaches its end runs, too. */
  lemma PrefixRan(db: Db, f: PriceFile, task: Id, k: nat)
    requires k <= |ImportProgram(f, task)| && Run(Begin(db), ImportProgram(f, task)).error.None?
    ensures Run(Begin(db), ImportProgram(f, task)[..k]).error.None?
    ensures k > 0 ==> Run(Begin(db), ImportProgram(f, task)[..k]).regs.shop == Run(Begin(db), ImportProgram(f, task)).regs.shop
  {
    var s, p := Begin(db), ImportProgram(f, task);
    assert p == p[..k] + p[k..];
    RanHalves(s, p[..k], p[k..]);
    if k > 0 {
      AfterOpening(f, task, k);
      RunKeepsShop(Run(s, p[..k]), p[k..]);
    }
  }

  /** The retry finds what it needs, and the same shop. */
  lemma RetrySucceeds(db: Db, f: PriceFile, task: Id, k: nat)
    requires ValidCatalog(db.catalog) && k <= |ImportProgram(f, task)| && Run(Begin(db), ImportProgram(f, task)).error.None?
    ensures var broken := Run(Begin(db), ImportProgram(f, task)[..k]).db;
      && ValidCatalog(broken.catalog) && OpenedShop(broken.catalog, f) == OpenedShop(db.catalog, f)
      && Run(Begin(broken), ImportProgram(f, task)).error.None?
  {
    if k > 0 {
      var p := ImportProgram(f, task);
      var d := Run(Begin(db), p[..k]).db;
      ImportProgramStmts(f, task);
      assert forall st :: st in p[..k] ==> st in p;
      ImportKeeps(Begin(db), p[..k]);
      RunsInto(db, f, task);
      PrefixRan(db, f, task, k);
      var i := StoppedBegun(db, f, task, k);
      ImportSucceedsExactly(db, f, task);
      StillReimportable(db.catalog, d.catalog, f, i);
      SameShopOpened(db.catalog, d.catalog, f, i);
      ImportSucceedsExactly(d, f, task);
    }
  }

  /** What the stopped run has done to the lists, and what the retry makes of it. */
  lemma RetryPublishes(db: Db, f: PriceFile, task: Id, k: nat)
    requires ValidCatalog(db.catalog) && k <= |ImportProgram(f, task)| && Run(Begin(db), ImportProgram(f, task)).error.None?
    ensures var broken := Run(Begin(db), ImportProgram(f, task)[..k]).db;
      var direct, retry := Run(Begin(db), ImportProgram(f, task)), Run(Begin(broken), ImportProgram(f, task));
      && retry.error.None? && retry.regs.shop == direct.regs.shop
      && forall x :: PriceList(retry.db.catalog, x) == PriceList(direct.db.catalog, x)
  {
    RetrySucceeds(db, f, task, k);
    PrefixRan(db, f, task, k);
    if k > 0 {
      var broken := Run(Begin(db), ImportProgram(f, task)[..k]).db;
      var shown := StoppedImport(db, f, task, k);
      RunsInto(db, f, task);
      RunsInto(broken, f, task);
      PatchedAgain(PriceList(db.catalog, OpenedShop(db.catalog, f)), shown, OrEmpty(f.goods));
      ImportPublishesPatches(db, f, task);
      ImportPublishesPatches(broken, f, task);
    }
  }

  lemma DeadTask(db: Db, f: PriceFile, task: Id, k: nat)
    requires k < |ImportProgram(f, task)|
    ensures Run(Begin(db), ImportProgram(f, task)[..k]).db.tasks == db.tasks
  {
    var p, body := ImportProgram(f, task), ImportHead(f) + ImportTail(f);
    assert p[..k] == body[..k];
    ImportGoodsBody(OrEmpty(f.goods));
    ImportCategoriesBody(OrEmpty(f.categories));
    assert forall st :: st in body[..k] ==> st in body;
    NoFinishKeepsTasks(Begin(db), body[..k]);
  }

  /**
   Recovery of a worker that died: wherever a `do_import` that would have succeeded stops before its last
   statement, its task is as it was, and running it again succeeds and leaves every price list, the task
   and the orders as one undisturbed run would have left them.
   */
  lemma RetryRecovers(db: Db, f: PriceFile, task: Id, k: nat)
    requires ValidCatalog(db.catalog) && k < |ImportProgram(f, task)| && Run(Begin(db), ImportProgram(f, task)).error.None?
    ensures var broken := Run(Begin(db), ImportProgram(f, task)[..k]).db;
      var direct, retry := Run(Begin(db), ImportProgram(f, task)), Run(Begin(broken), ImportProgram(f, task));
      && broken.tasks == db.tasks
      && retry.error.None? && retry.db.tasks == direct.db.tasks && retry.db.sales == direct.db.sales
      && forall x :: PriceList(retry.db.catalog, x) == PriceList(direct.db.catalog, x)
  {
    var p := ImportProgram(f, task);
    var broken := Run(Begin(db), p[..k]).db;
    RetryPublishes(db, f, task, k);
    DeadTask(db, f, task, k);
    TaskWritten(db, f, task);
    TaskWritten(broken, f, task);
    ImportSalesKept(db, f, task, k);
    ImportSalesKept(db, f, task, |p|);
    RetrySucceeds(db, f, task, k);
    ImportSalesKept(broken, f, task, |p|);
    assert p[..|p|] == p;
  }

  lemma ImportSalesKept(db: Db, f: PriceFile, task: Id, k: nat)
    requires ValidCatalog(db.catalog) && k <= |ImportProgram(f, task)|
    ensures Run(Begin(db), ImportProgram(f, task)[..k]).db.sales == db.sales
  {
    ImportAddsNoRow(db, f, task, k);
  }
}
