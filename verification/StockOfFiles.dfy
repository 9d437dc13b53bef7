/**
 Which files lower a stock.  Whether an import or a load is safe for carts at each of its statements can
 be read off the file, and for `do_import` the shop's list, before it starts.
 */
module StockOfFiles {
  import opened Prelude
  import opened Tables
  import opened Orm
  import opened Programs
  import opened PriceView
  import opened LoadSuccess
  import opened LoadResult
  import opened ListingMeaning
  import opened Recovery
  import opened LoadFailure
  import opened ImportFrame
  import opened ImportResult
  import opened ImportSettles
  import opened ImportSuccess
  import opened ImportPublishes
  import ImportFailure
  import opened ImportStops
  import opened System
  import opened Runs
  import opened Uninterrupted

  // ---------- Runs that lower no stock ----------

  /** No statement of the run lowers the stock of a row that it keeps. */
  ghost predicate Steady(s: Session, p: seq<Stmt>)
    decreases |p|
  {
    p == [] || s.error.Some? || (LowersNoStock(s.db.catalog, Exec(s, p[0]).db.catalog) && Steady(Exec(s, p[0]), p[1..]))
  }

  lemma {:induction false} SteadyAppend(s: Session, p: seq<Stmt>, q: seq<Stmt>)
    ensures Steady(s, p + q) <==> Steady(s, p) && Steady(Run(s, p), q)
    decreases |p|
  {
    if p == [] {
      assert p + q == q;
    } else if s.error.None? {
      assert (p + q)[1..] == p[1..] + q;
      SteadyAppend(Exec(s, p[0]), p[1..], q);
    }
  }

  lemma SteadyStep(s: Session, st: Stmt, rest: seq<Stmt>)
    requires s.error.None?
    ensures Steady(s, [st] + rest) <==> LowersNoStock(s.db.catalog, Exec(s, st).db.catalog) && Steady(Exec(s, st), rest)
  {
    assert ([st] + rest)[1..] == rest;
  }

  /** Only the two statements that write product rows can lower a stock. */
  predicate Calm(st: Stmt) {
    !st.PutOffer? && !st.PatchOffer? && !st.AddOffer?
  }

  lemma {:induction false} CalmIsSteady(s: Session, p: seq<Stmt>)
    requires forall st :: st in p ==> Calm(st)
    ensures Steady(s, p)
    decreases |p|
  {
    if p != [] && s.error.None? {
      assert p[0] in p;
      CalmIsSteady(Exec(s, p[0]), p[1..]);
    }
  }

  /** One event of a load is one statement of its program. */
  lemma OneLoadStep(y: System, k: nat)
    requires k < |y.loads| && y.loads[k].rest != []
    ensures var z, job := Next(y, LoadStep(k)), y.loads[k]; var s := Exec(Session(y.db, job.regs, None), job.rest[0]);
      && z.db == s.db && k < |z.loads|
      && z.loads[k] == (if s.error.Some? then job.(rest := []) else Job(job.task, s.regs, job.rest[1..]))
      && (s.error.None? ==> Session(z.db, z.loads[k].regs, None) == s)
  {}

  lemma FirstLowers(y: System, e: Event, es: seq<Event>)
    ensures NeverLowers(y, [e] + es) <==> LowersNoStock(y.db.catalog, Next(y, e).db.catalog) && NeverLowers(Next(y, e), es)
  {
    assert ([e] + es)[1..] == es;
  }

  /** A job that nothing interrupts is as steady as its program. */
  lemma {:induction false} LoadEventsSteady(y: System, k: nat, n: nat)
    requires k < |y.loads| && n == |y.loads[k].rest|
    ensures NeverLowers(y, Repeat(LoadStep(k), n)) <==> Steady(Session(y.db, y.loads[k].regs, None), y.loads[k].rest)
    decreases n
  {
    if n > 0 {
      var p, s := y.loads[k].rest, Session(y.db, y.loads[k].regs, None);
      OneLoadStep(y, k);
      FirstLowers(y, LoadStep(k), Repeat(LoadStep(k), n - 1));
      assert p == [p[0]] + p[1..];
      SteadyStep(s, p[0], p[1..]);
      LaterEventsSteady(y, Next(y, LoadStep(k)), k, n);
    }
  }

  lemma {:induction false} LaterEventsSteady(y: System, z: System, k: nat, n: nat)
    requires 0 < n && k < |y.loads| && n == |y.loads[k].rest| && k < |z.loads|
    requires var job := y.loads[k]; var s := Exec(Session(y.db, job.regs, None), job.rest[0]);
      && z.loads[k] == (if s.error.Some? then job.(rest := []) else Job(job.task, s.regs, job.rest[1..]))
      && (s.error.None? ==> Session(z.db, z.loads[k].regs, None) == s)
    ensures NeverLowers(z, Repeat(LoadStep(k), n - 1)) <==>
      Steady(Exec(Session(y.db, y.loads[k].regs, None), y.loads[k].rest[0]), y.loads[k].rest[1..])
    decreases n, 0
  {
    if Exec(Session(y.db, y.loads[k].regs, None), y.loads[k].rest[0]).error.Some? {
      IdleEventsSteady(z, k, n - 1);
    } else {
      LoadEventsSteady(z, k, n - 1);
    }
  }

  lemma {:induction false} IdleEventsSteady(y: System, k: nat, n: nat)
    requires k < |y.loads| && y.loads[k].rest == []
    ensures NeverLowers(y, Repeat(LoadStep(k), n))
    decreases n
  {
    if n > 0 {
      assert Repeat(LoadStep(k), n)[1..] == Repeat(LoadStep(k), n - 1);
      IdleEventsSteady(Next(y, LoadStep(k)), k, n - 1);
    }
  }

  // ---------- load_data ----------

  /** Later complete entries with the same id never have less stock. */
  ghost predicate NonDecreasing(gs: seq<Good>) {
    forall j, k | 0 <= j < k < |gs| && Complete(gs[j]) && Complete(gs[k]) && gs[j].id == gs[k].id ::
      gs[j].quantity.value <= gs[k].quantity.value
  }

  /** A shop that lists this much of an id, and then one more good. */
  ghost predicate NotLess(prices: Prices, g: Good) {
    Complete(g) && g.id.value in prices ==> prices[g.id.value].quantity <= g.quantity.value
  }

  lemma {:induction false} LastMention(gs: seq<Good>, ext: int) returns (k: nat)
    requires exists j :: Lists(gs, j, ext)
    ensures Lists(gs, k, ext) && forall i | k < i :: !Lists(gs, i, ext)
    decreases |gs|
  {
    var m := |gs| - 1;
    if Lists(gs, m, ext) {
      k := m;
    } else {
      var j :| Lists(gs, j, ext);
      assert Lists(gs[..m], j, ext);
      k := LastMention(gs[..m], ext);
      forall i | k < i ensures !Lists(gs, i, ext) { assert !Lists(gs[..m], i, ext); }
    }
  }

  lemma NonDecreasingSnoc(gs: seq<Good>, g: Good)
    requires AllSound(gs)
    ensures NonDecreasing(gs + [g]) <==> NonDecreasing(gs) && NotLess(Listing(gs), g)
  {
    var hs := gs + [g];
    assert forall j :: 0 <= j < |gs| ==> hs[j] == gs[j];
    if Complete(g) {
      ListedIds(gs, g.id.value);
      if g.id.value in Listing(gs) {
        var k := LastMention(gs, g.id.value);
        ListedColumns(gs, k, g.id.value);
        assert hs[k] == gs[k] && hs[|gs|] == g;
        if NonDecreasing(gs) && NotLess(Listing(gs), g) {
          forall j | 0 <= j < |gs| && Complete(hs[j]) && hs[j].id == g.id ensures hs[j].quantity.value <= g.quantity.value {
            assert Lists(gs, j, g.id.value);
            if j < k { assert gs[j].quantity.value <= gs[k].quantity.value; }
          }
        }
      } else {
        forall j | 0 <= j < |gs| && Complete(hs[j]) ensures hs[j].id != g.id { assert !Lists(gs, j, g.id.value); }
      }
    }
  }

  /** Writing a row lowers a stock exactly when the list shows more of that id. */
  lemma PutSteady(s: Session, g: Good)
    requires s.error.None? && ValidCatalog(s.db.catalog) && Complete(g)
    ensures var put := RowStmts(g)[1];
      Exec(s, put).error.None? ==>
        (LowersNoStock(s.db.catalog, Exec(s, put).db.catalog) <==> NotLess(PriceList(s.db.catalog, s.regs.shop), g))
  {
    var c, at := s.db.catalog, InfosAt(s.db.catalog.infos.rows, s.regs.shop, g.id.value);
    OneOffer(c, s.regs.shop, g.id.value);
    if Lookup(at).One? {
      assert Lookup(at).id in at;
      assert g.id.value in PriceList(c, s.regs.shop);
    }
  }

  /** One good of `load_data`, in a store that lists something already. */
  lemma GoodSteady(s: Session, g: Good)
    requires s.error.None? && ValidCatalog(s.db.catalog) && s.regs.shop in s.db.catalog.shops.rows && Complete(g)
    ensures Steady(s, LoadGood(g)) <==>
      (Run(s, RowStmts(g)).error.None? ==> NotLess(PriceList(s.db.catalog, s.regs.shop), g))
  {
    var one, two, field := RowStmts(g)[0], RowStmts(g)[1], LoadParameterField(g.parameters);
    assert LoadGood(g) == [one] + ([two] + field) && RowStmts(g) == [one] + ([two] + []);
    SteadyStep(s, one, [two] + field);
    RunStep(s, one, [two] + []);
    ProductRuns(s, g.name.value, g.category.value);
    var s1 := Exec(s, one);
    if s1.error.None? {
      SteadyStep(s1, two, field);
      RunStep(s1, two, []);
      OfferRuns(s1, g);
      SameShopList(s.db.catalog, s1.db.catalog, s.regs.shop);
      PutSteady(s1, g);
      FieldCalm(g);
      CalmIsSteady(Exec(s1, two), field);
    }
  }

  lemma SameShopList(c: Catalog, d: Catalog, shop: Id)
    requires NoDangling(c) && d == c.(products := d.products)
    requires forall p :: p in c.products.rows ==> p in d.products.rows && d.products.rows[p].name == c.products.rows[p].name
    ensures PriceList(d, shop) == PriceList(c, shop)
  {
    ProductsGrow(c, d);
    PriceListIsView(c, shop);
    PriceListIsView(d, shop);
  }

  lemma FieldCalm(g: Good)
    ensures forall st :: st in LoadParameterField(g.parameters) ==> Calm(st)
  {
    ParametersCalm(OrEmpty(g.parameters));
  }

  lemma {:induction false} ParametersCalm(ps: seq<(string, Scalar)>)
    ensures forall st :: st in LoadParameters(ps) ==> Calm(st)
    decreases |ps|
  {
    if ps != [] {
      ParametersCalm(ps[1..]);
    }
  }

  lemma {:induction false} GoodsSteady(s: Session, a: Abs, hs: seq<Good>)
    requires s.error.None? && ValidCatalog(s.db.catalog) && Match(s.db.catalog, s.regs, a) && s.regs.shop in s.db.catalog.shops.rows
    requires Of(a.view, a.shop) == imap[] && AllPlaced(s.db.catalog, s.db.catalog.categories.rows.Keys, hs)
    ensures Steady(s, LoadGoods(hs)) <==> NonDecreasing(hs)
    decreases |hs|
  {
    if hs != [] {
      var m, c := |hs| - 1, s.db.catalog;
      var init, g := hs[..m], hs[m];
      assert init + [g] == hs;
      GoodsSnocCondition(c, c.categories.rows.Keys, hs);
      GoodsSteady(s, a, init);
      LoadGoodsSnoc(hs);
      SteadyAppend(s, LoadGoods(init), LoadGood(g));
      GoodsRun(s, init);
      GoodsRun(s, hs);
      RunAppend(s, LoadGoods(init), LoadGood(g));
      LastSteady(s, a, init, g);
    }
  }

  /** The goods before are listed; one more is steady exactly when the list has no more of it. */
  lemma LastSteady(s: Session, a: Abs, init: seq<Good>, g: Good)
    requires s.error.None? && ValidCatalog(s.db.catalog) && Match(s.db.catalog, s.regs, a) && s.regs.shop in s.db.catalog.shops.rows
    requires Of(a.view, a.shop) == imap[] && AllSound(init)
    requires Run(s, LoadGoods(init)).error.None? && GoodsDone(s, Run(s, LoadGoods(init)), init)
    ensures var u := Run(s, LoadGoods(init));
      && (Steady(u, LoadGood(g)) <==> (Complete(g) && Run(u, RowStmts(g)).error.None? ==> NotLess(Listing(init), g)))
      && (Run(u, LoadGood(g)).error.None? && Complete(g) ==> Run(u, RowStmts(g)).error.None?)
      && (NonDecreasing(init + [g]) <==> NonDecreasing(init) && NotLess(Listing(init), g))
  {
    var u := Run(s, LoadGoods(init));
    ListedBefore(s, a, init);
    PriceListIsView(u.db.catalog, u.regs.shop);
    NonDecreasingSnoc(init, g);
    if Complete(g) {
      GoodSteady(u, g);
      assert LoadGood(g) == RowStmts(g) + LoadParameterField(g.parameters);
      RunAppend(u, RowStmts(g), LoadParameterField(g.parameters));
    }
  }

  /** The good at which the load stops: its row is the last one written, if it is written at all. */
  lemma StoppedSteady(s: Session, a: Abs, gs: seq<Good>, i: nat)
    requires s.error.None? && ValidCatalog(s.db.catalog) && Match(s.db.catalog, s.regs, a) && s.regs.shop in s.db.catalog.shops.rows
    requires Of(a.view, a.shop) == imap[] && i == FirstUnfit(s.db.catalog, s.db.catalog.categories.rows.Keys, gs) && i < |gs|
    requires Steady(s, LoadGoods(gs[..i])) <==> NonDecreasing(gs[..i])
    ensures Steady(s, LoadGoods(gs)) <==> NonDecreasing(Stored(s.db.catalog, s.db.catalog.categories.rows.Keys, gs))
  {
    var init, g := gs[..i], gs[i];
    GoodsBefore(s, gs);
    var u := Run(s, LoadGoods(init));
    StopsAt(s, gs);
    PlacedNow(s, u, gs, i);
    RowRuns(u, g);
    SplitGoods(gs, i);
    SteadyAppend(s, LoadGoods(init), LoadGood(g) + LoadGoods(gs[i+1..]));
    SteadyAppend(u, LoadGood(g), LoadGoods(gs[i+1..]));
    LastSteady(s, a, init, g);
    NonDecreasingSnoc(init, Clip(g, 0));
  }

  lemma StoredSteady(s: Session, a: Abs, gs: seq<Good>)
    requires s.error.None? && ValidCatalog(s.db.catalog) && Match(s.db.catalog, s.regs, a) && s.regs.shop in s.db.catalog.shops.rows
    requires Of(a.view, a.shop) == imap[]
    ensures Steady(s, LoadGoods(gs)) <==> NonDecreasing(Stored(s.db.catalog, s.db.catalog.categories.rows.Keys, gs))
  {
    var i := FirstUnfit(s.db.catalog, s.db.catalog.categories.rows.Keys, gs);
    GoodsBefore(s, gs);
    GoodsSteady(s, a, gs[..i]);
    if i == |gs| {
      assert gs[..i] == gs;
    } else {
      StoppedSteady(s, a, gs, i);
    }
  }

  lemma HeadCalm(f: PriceFile, user: Option<Id>)
    ensures forall st :: st in LoadHead(f, user) ==> Calm(st)
  {
    QuietCategories(OrEmpty(f.categories));
  }

  /**
   `load_data`, stopped by an error or not, lowers no stock at any of its statements if and only if the
   goods that it lists mention no id again with less stock.
   */
  lemma LoadSteadyExactly(db: Db, f: PriceFile, user: Option<Id>)
    requires ValidCatalog(db.catalog)
    ensures Steady(Begin(db), LoadProgram(f, user)) <==> HeadFails(db.catalog, f, user) || NonDecreasing(Listed(db.catalog, f))
  {
    var s := Begin(db);
    if !Formed(f) {
      CalmIsSteady(s, LoadProgram(f, user));
    } else {
      HeadCalm(f, user);
      CalmIsSteady(s, LoadHead(f, user));
      SteadyAppend(s, LoadHead(f, user), LoadTail(f));
      HeadRuns(db, f, user);
      if !HeadFails(db.catalog, f, user) { TailSteady(db, f, user); }
    }
  }

  lemma TailSteady(db: Db, f: PriceFile, user: Option<Id>)
    requires ValidCatalog(db.catalog) && !HeadFails(db.catalog, f, user)
    ensures Steady(Run(Begin(db), LoadHead(f, user)), LoadTail(f)) <==> NonDecreasing(Listed(db.catalog, f))
  {
    AfterHeadRuns(db, f, user);
    var u := Run(Begin(db), LoadHead(f, user));
    var a := HeadRefines(db, f, user);
    if f.goods.Given? {
      StoredSteady(u, a, f.goods.value);
      SameStored(u.db.catalog, db.catalog, CategoriesAfter(db.catalog, f.categories.value), f.goods.value);
    } else {
      CalmIsSteady(u, LoadTail(f));
    }
  }

  /** The same for a command of the running system that nothing interrupts. */
  lemma LoadAloneSteady(y: System, f: PriceFile, owner: Option<Id>)
    requires ValidCatalog(y.db.catalog)
    ensures NeverLowers(Next(y, StartLoad(f, owner)), Repeat(LoadStep(|y.loads|), |LoadProgram(f, owner)|)) <==>
      HeadFails(y.db.catalog, f, owner) || NonDecreasing(Listed(y.db.catalog, f))
  {
    LoadEventsSteady(Next(y, StartLoad(f, owner)), |y.loads|, |LoadProgram(f, owner)|);
    LoadSteadyExactly(y.db, f, owner);
  }

  // ---------- do_import ----------

  /** A list, and one good that does not take stock away. */
  ghost predicate Refills(prices: Prices, g: Good) {
    g.id.Given? && g.id.value in prices && g.quantity.GetOr(0).Some? ==> prices[g.id.value].quantity <= g.quantity.GetOr(0).value
  }

  /** Each good's quantity is at least what its row has when it comes to it. */
  ghost predicate Restocking(prices: Prices, gs: seq<Good>) {
    gs == [] || (Restocking(prices, gs[..|gs|-1]) && Refills(Restocked(prices, gs[..|gs|-1]), gs[|gs|-1]))
  }

  lemma PatchSteady(s: Session, g: Good)
    requires s.error.None? && ValidCatalog(s.db.catalog) && g.id != Missing
    ensures var patch := PatchOffer(g.id.Get(), g.price.GetOr(0), g.quantity.GetOr(0)); var t := Exec(s, patch);
      LowersNoStock(s.db.catalog, t.db.catalog) <==> (t.error.None? ==> Refills(PriceList(s.db.catalog, s.regs.shop), g))
  {
    var c := s.db.catalog;
    if g.id.Given? {
      var at := InfosAt(c.infos.rows, s.regs.shop, g.id.value);
      OneOffer(c, s.regs.shop, g.id.value);
      if Lookup(at).One? {
        assert Lookup(at).id in at;
        assert g.id.value in PriceList(c, s.regs.shop);
      }
    }
  }

  lemma ImportFieldCalm(ext: Option<int>, f: Field<seq<(string, Scalar)>>)
    ensures forall st :: st in ImportParameterField(ext, f) ==> Calm(st)
  {
    ImportParametersCalm(ext, OrEmpty(f));
  }

  lemma {:induction false} ImportParametersCalm(ext: Option<int>, ps: seq<(string, Scalar)>)
    ensures forall st :: st in ImportParameters(ext, ps) ==> Calm(st)
    decreases |ps|
  {
    if ps != [] {
      ImportParametersCalm(ext, ps[1..]);
    }
  }

  /** The statements after the product of a good is open. */
  lemma RestSteady(s: Session, s2: Session, g: Good)
    requires s2.error.None? && ValidCatalog(s2.db.catalog) && s2.regs.shop == s.regs.shop && ValidCatalog(s.db.catalog)
    requires s2.db.catalog == s.db.catalog.(products := ProductsAfter(s.db.catalog, g)) && s2.regs.product in s2.db.catalog.products.rows
    requires g.category.Given? && g.category.value in s.db.catalog.categories.rows && g.name.Given? && g.id != Missing
    ensures var patch := PatchOffer(g.id.Get(), g.price.GetOr(0), g.quantity.GetOr(0));
      Steady(s2, [patch] + ([Tally(Products)] + ImportParameterField(g.id.Get(), g.parameters))) <==>
        (RowMatched(s.db.catalog, s.regs.shop, g) ==> Refills(PriceList(s.db.catalog, s.regs.shop), g))
  {
    var patch, rest := PatchOffer(g.id.Get(), g.price.GetOr(0), g.quantity.GetOr(0)), [Tally(Products)] + ImportParameterField(g.id.Get(), g.parameters);
    SteadyStep(s2, patch, rest);
    ImportFieldCalm(g.id.Get(), g.parameters);
    CalmIsSteady(Exec(s2, patch), rest);
    PatchSteady(s2, g);
    SameShopList(s.db.catalog, s2.db.catalog, s.regs.shop);
    PatchRuns(s, s2, g);
  }

  /** One good of `do_import`. */
  lemma ImportedSteady(s: Session, g: Good)
    requires s.error.None? && ValidCatalog(s.db.catalog)
    ensures Steady(s, ImportGood(g)) <==> (RowMatched(s.db.catalog, s.regs.shop, g) ==> Refills(PriceList(s.db.catalog, s.regs.shop), g))
  {
    if g.category.Missing? || g.name.Missing? || g.id.Missing? {
      CalmIsSteady(s, ImportGood(g));
    } else {
      var one, two, three := ImportRow(g)[0], ImportRow(g)[1], ImportRow(g)[2];
      var rest := [three] + ([Tally(Products)] + ImportParameterField(g.id.Get(), g.parameters));
      assert ImportGood(g) == [one] + ([two] + rest);
      SteadyStep(s, one, [two] + rest);
      FindRuns(s, g.category.Get());
      var s1 := Exec(s, one);
      if s1.error.None? {
        SteadyStep(s1, two, rest);
        OpenRuns(s1, g);
        if Exec(s1, two).error.None? { RestSteady(s, Exec(s1, two), g); }
      }
    }
  }

  /** The row statement works exactly for a row that matches. */
  lemma PatchRuns(s: Session, s2: Session, g: Good)
    requires s2.error.None? && ValidCatalog(s2.db.catalog) && s2.regs.shop == s.regs.shop && s2.db.catalog.infos == s.db.catalog.infos
    requires g.category.Given? && g.category.value in s.db.catalog.categories.rows && g.name.Given? && g.id != Missing
    requires s2.regs.product in s2.db.catalog.products.rows
    ensures Exec(s2, PatchOffer(g.id.Get(), g.price.GetOr(0), g.quantity.GetOr(0))).error.None? <==> RowMatched(s.db.catalog, s.regs.shop, g)
  {
    if g.id.Given? { OneOffer(s2.db.catalog, s2.regs.shop, g.id.value); }
  }

  lemma {:induction false} ImportsSteady(s: Session, a: Abs, hs: seq<Good>)
    requires s.error.None? && ValidCatalog(s.db.catalog) && Match(s.db.catalog, s.regs, a)
    requires Run(s, ImportGoods(hs)).error.None?
    ensures Steady(s, ImportGoods(hs)) <==> Restocking(PriceList(s.db.catalog, s.regs.shop), hs)
    decreases |hs|
  {
    if hs != [] {
      var m := |hs| - 1;
      var init, g := hs[..m], hs[m];
      ImportGoodsSnoc(hs);
      RanHalves(s, ImportGoods(init), ImportGood(g));
      SteadyAppend(s, ImportGoods(init), ImportGood(g));
      ImportsSteady(s, a, init);
      RestockedSoFar(s, a, init);
      var u := Run(s, ImportGoods(init));
      GoodImports(u, g);
      ImportedSteady(u, g);
    }
  }

  lemma RestockedSoFar(s: Session, a: Abs, init: seq<Good>)
    requires s.error.None? && ValidCatalog(s.db.catalog) && Match(s.db.catalog, s.regs, a) && Run(s, ImportGoods(init)).error.None?
    ensures var u := Run(s, ImportGoods(init));
      && ValidCatalog(u.db.catalog) && u.regs.shop == s.regs.shop
      && PriceList(u.db.catalog, u.regs.shop) == Restocked(PriceList(s.db.catalog, s.regs.shop), init)
  {
    GoodsSettle(s, a, init);
    GoodsRestock(s, a, init);
    PriceListIsView(s.db.catalog, s.regs.shop);
    PriceListIsView(Run(s, ImportGoods(init)).db.catalog, s.regs.shop);
  }

  /** The good at which the import stops. */
  lemma StopSteady(s: Session, gs: seq<Good>)
    requires s.error.None? && ValidCatalog(s.db.catalog) && FirstUnmatched(s.db.catalog, s.regs.shop, gs) < |gs|
    requires var init := gs[..FirstUnmatched(s.db.catalog, s.regs.shop, gs)];
      Run(s, ImportGoods(init)).error.None? && (Steady(s, ImportGoods(init)) <==> Restocking(PriceList(s.db.catalog, s.regs.shop), init))
    ensures Steady(s, ImportGoods(gs)) <==>
      Restocking(PriceList(s.db.catalog, s.regs.shop), Imported(s.db.catalog, s.regs.shop, gs))
  {
    var c, shop := s.db.catalog, s.regs.shop;
    var i := FirstUnmatched(c, shop, gs);
    var init, g := gs[..i], gs[i];
    var u := Run(s, ImportGoods(init));
    StopsAtUnmatched(s, gs);
    GoodFails(u, g);
    SplitImports(gs, i);
    SteadyAppend(s, ImportGoods(init), ImportGood(g) + ImportGoods(gs[i+1..]));
    SteadyAppend(u, ImportGood(g), ImportGoods(gs[i+1..]));
    RestockedSoFar(s, AbsOf(c, s.regs), init);
    ImportedSteady(u, g);
    RestockingSnoc(PriceList(c, shop), init, Clip(g, 0));
  }

  lemma RestockingSnoc(prices: Prices, init: seq<Good>, g: Good)
    ensures Restocking(prices, init + [g]) <==> Restocking(prices, init) && Refills(Restocked(prices, init), g)
  {
    assert (init + [g])[..|init|] == init;
  }

  lemma ImportedGoodsSteady(s: Session, gs: seq<Good>)
    requires s.error.None? && ValidCatalog(s.db.catalog)
    ensures Steady(s, ImportGoods(gs)) <==>
      Restocking(PriceList(s.db.catalog, s.regs.shop), Imported(s.db.catalog, s.regs.shop, gs))
  {
    var c, shop := s.db.catalog, s.regs.shop;
    var i := FirstUnmatched(c, shop, gs);
    var init := gs[..i];
    assert forall g :: g in init ==> Matched(c, shop, g);
    GoodsImport(s, init);
    ImportsSteady(s, AbsOf(c, s.regs), init);
    if i == |gs| {
      assert init == gs;
    } else {
      StopSteady(s, gs);
    }
  }

  lemma ImportHeadCalm(f: PriceFile)
    ensures forall st :: st in ImportHead(f) ==> Calm(st)
  {
    ImportCategoriesBody(OrEmpty(f.categories));
  }

  /** Each good that is imported has at least the stock that its row has when its turn comes. */
  ghost predicate ImportRestocks(c: Catalog, f: PriceFile) {
    || !HeadPasses(c, f) || f.goods.Null?
    || var shop := OpenedShop(c, f);
       Restocking(PriceList(c, shop), Imported(WithCategories(c, f), shop, OrEmpty(f.goods)))
  }

  /**
   `do_import`, stopped by an error or not, lowers no stock at any of its statements if and only if each
   good that it imports has at least the stock that its row has when its turn comes.
   */
  lemma ImportSteadyExactly(db: Db, f: PriceFile, task: Id)
    requires ValidCatalog(db.catalog)
    ensures Steady(Begin(db), ImportProgram(f, task)) <==> ImportRestocks(db.catalog, f)
  {
    var s, head, tail := Begin(db), ImportHead(f), ImportTail(f);
    ImportHeadCalm(f);
    CalmIsSteady(s, head);
    SteadyAppend(s, head + tail, [Finish(task)]);
    SteadyAppend(s, head, tail);
    RunAppend(s, head, tail);
    CalmIsSteady(Run(s, head + tail), [Finish(task)]);
    ImportHeadSucceeds(db, f);
    var u := Run(s, head);
    if u.error.None? {
      if f.goods.Null? {
        CalmIsSteady(u, tail);
      } else {
        ImportedGoodsSteady(u, OrEmpty(f.goods));
        SameUnmatched(u.db.catalog, WithCategories(db.catalog, f), u.regs.shop, OrEmpty(f.goods));
        HeadLists(db, f);
      }
    }
  }

  lemma HeadLists(db: Db, f: PriceFile)
    ensures forall x :: PriceList(Run(Begin(db), ImportHead(f)).db.catalog, x) == PriceList(db.catalog, x)
  {
    ImportCategoriesBody(OrEmpty(f.categories));
    HeadShowsNothing(Begin(db), ImportHead(f));
    ImportFailure.SameLists(db.catalog, Run(Begin(db), ImportHead(f)).db.catalog);
  }
}
