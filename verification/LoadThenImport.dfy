/** `load_data` and then `do_import` of the same file. */
module LoadThenImport {
  import opened Prelude
  import opened Tables
  import opened Programs
  import opened LoadSuccess
  import opened LoadResult
  import opened ImportAgain
  import opened ImportSettles
  import opened ImportSuccess

  /** No entry, good or parameter that `load_data` would skip. */
  predicate Plain(f: PriceFile) {
    && (forall e :: e in OrEmpty(f.categories) ==> LoadSuccess.Accepted(e))
    && (forall g :: g in OrEmpty(f.goods) ==> PlainGood(g))
  }

  predicate PlainGood(g: Good) {
    Complete(g) && PlainParameters(OrEmpty(g.parameters))
  }

  predicate PlainParameters(ps: seq<(string, Scalar)>) {
    forall p :: p in ps ==> p.0 != "" && p.1.Truthy()
  }

  // ---------- Both importers merge plain parameters alike ----------

  lemma {:induction false} MergeAllCons(m: imap<string, string>, ps: seq<(string, Scalar)>)
    requires ps != []
    ensures MergeAll(m, ps) == MergeAll(m[ps[0].0 := ps[0].1.Str()], ps[1..])
    decreases |ps|
  {
    if |ps| > 1 {
      var k := |ps| - 1;
      MergeAllCons(m, ps[..k]);
      assert ps[..k][1..] == ps[1..][..k-1];
    } else {
      assert ps[..0] == [] && ps[1..] == [];
    }
  }

  lemma {:induction false} MergesAlike(m: imap<string, string>, ps: seq<(string, Scalar)>)
    requires PlainParameters(ps)
    ensures MergeParameters(m, ps) == MergeAll(m, ps)
    decreases |ps|
  {
    if ps != [] {
      assert ps[0] in ps;
      assert forall p :: p in ps[1..] ==> p in ps;
      MergeAllCons(m, ps);
      MergesAlike(m[ps[0].0 := ps[0].1.text], ps[1..]);
    }
  }

  /** What `load_data` publishes for plain goods agrees with them. */
  lemma {:induction false} ListingAgrees(gs: seq<Good>)
    requires AllSound(gs) && forall g :: g in gs ==> PlainGood(g)
    ensures AgreesWith(Listing(gs), gs)
    decreases |gs|
  {
    if gs != [] {
      var m := |gs| - 1;
      var init, g := gs[..m], gs[m];
      assert g in gs && init + [g] == gs;
      assert forall h :: h in init ==> h in gs;
      assert forall k :: 0 <= k < m ==> init[k] == gs[k];
      ListingAgrees(init);
      MergesAlike(ParametersIn(Listing(init), g.id.value), OrEmpty(g.parameters));
      assert Sound(g);
      AgreementStep(Listing(init), init, g, Listing(gs)[g.id.value]);
    }
  }

  // ---------- The store after load_data ----------

  predicate CategoriesListed(categories: set<Id>, gs: seq<Good>) {
    forall g :: g in gs ==> g.category.Given? && g.category.value in categories
  }

  lemma LoadLeavesKnown(db: Db, f: PriceFile, user: Option<Id>)
    requires ValidCatalog(db.catalog) && Plain(f) && Run(Begin(db), LoadProgram(f, user)).error.None?
    ensures var t := Run(Begin(db), LoadProgram(f, user)); var c := t.db.catalog;
      && ValidCatalog(c) && KnowsCategories(c, OrEmpty(f.categories))
      && c.categories.rows.Keys == CategoriesAfter(db.catalog, OrEmpty(f.categories))
      && forall g :: g in OrEmpty(f.goods) ==> HasProduct(c, g.name.value)
  {
    LoadSucceedsExactly(db, f, user);
    var s := Begin(db);
    RunAppend(s, LoadHead(f, user), LoadTail(f));
    HeadRuns(db, f, user);
    var u := Run(s, LoadHead(f, user));
    GoodsRun(u, f.goods.value);
    var t := Run(u, LoadTail(f));
    assert GoodsDone(u, t, f.goods.value);
    forall e | e in OrEmpty(f.categories) ensures e.id.Given? && e.id.value in t.db.catalog.categories.rows && e.name != Missing {
      assert LoadSuccess.Accepted(e);
      assert e.id.value in CategoriesAfter(db.catalog, f.categories.value);
    }
    forall g | g in OrEmpty(f.goods) ensures HasProduct(t.db.catalog, g.name.value) {
      var j :| 0 <= j < |f.goods.value| && f.goods.value[j] == g;
      assert PlainGood(g);
      assert Names(f.goods.value[j], g.name.value);
    }
  }

  lemma LoadLeavesInStep(db: Db, f: PriceFile, user: Option<Id>)
    requires ValidCatalog(db.catalog) && Plain(f) && Run(Begin(db), LoadProgram(f, user)).error.None?
    requires CategoriesListed(CategoriesAfter(db.catalog, OrEmpty(f.categories)), OrEmpty(f.goods))
    ensures var t := Run(Begin(db), LoadProgram(f, user)); ValidCatalog(t.db.catalog) && InStep(t.db.catalog, f, t.regs.shop)
  {
    var t, gs := Run(Begin(db), LoadProgram(f, user)), OrEmpty(f.goods);
    LoadLeavesKnown(db, f, user);
    LoadSucceedsExactly(db, f, user);
    LoadPublishesFile(db, f, user);
    forall g | g in gs ensures Supported(t.db.catalog, g) {
      var k :| 0 <= k < |gs| && gs[k] == g;
      assert PlainGood(g) && Sound(gs[k]);
    }
    ListingAgrees(gs);
  }

  // ---------- The second step ----------

  lemma {:induction false} KnownImported(t: Table<Category>, es: seq<CategoryEntry>)
    requires forall e :: e in es ==> e.id.Given? && e.id.value in t.rows && e.name != Missing
    ensures CategoriesImported(t, es) == Some(t)
    decreases |es|
  {
    if es != [] {
      KnownImported(t, es[1..]);
    }
  }

  /**
   After a successful `load_data` of a file without gaps, `do_import` of the same file succeeds exactly
   when every good's category was known or is listed in the file; and then it changes no catalogue,
   category or order row at all, even where the file repeats an external id.
   */
  lemma LoadThenImportExactly(db: Db, f: PriceFile, user: Option<Id>, task: Id)
    requires ValidCatalog(db.catalog) && Plain(f) && Run(Begin(db), LoadProgram(f, user)).error.None?
    ensures var loaded := Run(Begin(db), LoadProgram(f, user)).db; var t := Run(Begin(loaded), ImportProgram(f, task));
      && (t.error.None? <==> CategoriesListed(CategoriesAfter(db.catalog, OrEmpty(f.categories)), OrEmpty(f.goods)))
      && (t.error.None? ==> t.db == loaded.(tasks := Processed(loaded.tasks, task, CountsOf(f))))
  {
    var u := Run(Begin(db), LoadProgram(f, user));
    LoadLeavesKnown(db, f, user);
    if CategoriesListed(CategoriesAfter(db.catalog, OrEmpty(f.categories)), OrEmpty(f.goods)) {
      LoadLeavesInStep(db, f, user);
      ImportInStep(u.db, f, u.regs.shop, task);
    } else if Run(Begin(u.db), ImportProgram(f, task)).error.None? {
      ImportSucceedsExactly(u.db, f, task);
      KnownImported(u.db.catalog.categories, OrEmpty(f.categories));
      forall g | g in OrEmpty(f.goods) ensures g.category.Given? && g.category.value in u.db.catalog.categories.rows.Keys {
        assert Acceptable(u.db.catalog.categories.rows.Keys, g);
      }
    }
  }
}
