/**
 Stock is checked when a line is written and never reserved.  An import event is safe for every cart that
 may have been filled just before it exactly when it lowers no stock; and both importers have events
 that are not, `load_data` included.
 */
module Stock {
  import opened Prelude
  import opened Tables
  import opened Programs
  import opened LoadSuccess
  import opened LoadResult
  import opened Cart
  import opened System
  import opened Safety
  import opened Runs
  import opened Uninterrupted
  import opened Witnesses

  // ---------- One event ----------

  ghost function Above(s: set<Id>): (b: Id)
    ensures forall x :: x in s ==> x < b
    decreases |s|
  {
    if s == {} then 0
    else
      var x := Any(s);
      var b := Above(s - {x});
      assert forall y :: y in s ==> y == x || y in s - {x};
      if b <= x then x + 1 else b
  }

  ghost function Newcomer(s: Sales): Id {
    Above(set o | o in s.orders.rows :: s.orders.rows[o].user)
  }

  lemma NewcomerHasNoBasket(s: Sales)
    ensures Baskets(s.orders.rows, Newcomer(s)) == {}
  {
    var users := set o | o in s.orders.rows :: s.orders.rows[o].user;
    forall o ensures o !in Baskets(s.orders.rows, Newcomer(s)) {
      if o in s.orders.rows { assert s.orders.rows[o].user in users; }
    }
    Nothing(Baskets(s.orders.rows, Newcomer(s)));
  }

  /** A user without a basket can put all there is of a row into a new one. */
  lemma TakesAll(infos: map<Id, Info>, s: Sales, user: Id, i: Id)
    requires ValidSales(s) && Baskets(s.orders.rows, user) == {} && i in infos && 0 < i && 0 < infos[i].quantity
    ensures var t := Handle(infos, s, user, AddToCart(Some(i), Given(infos[i].quantity))).sales;
      t.lines.rows == s.lines.rows[s.lines.next := Line(s.orders.next, i, infos[i].quantity)]
  {
    assert forall l :: l in s.lines.rows ==> s.lines.rows[l].order != s.orders.next;
    Nothing(LinesAt(s.lines.rows, s.orders.next, i));
  }

  /** What a job does to the catalogue does not depend on the orders. */
  lemma StepIgnoresSales(a: Db, b: Db, job: Job)
    requires a.catalog == b.catalog
    ensures StepJob(a, job).db.catalog == StepJob(b, job).db.catalog
  {}

  lemma RequestThenEvent(y: System, user: Id, r: Request, e: Event)
    requires !e.Ask?
    ensures Next(Next(y, Ask(user, r)), e).db.catalog == Next(y, e).db.catalog
  {
    var z := Next(y, Ask(user, r));
    match e
    case LoadStep(k) => if k < |y.loads| { StepIgnoresSales(z.db, y.db, y.loads[k]); }
    case WorkerStep => StepIgnoresSales(z.db, y.db, y.worker);
    case _ =>
  }

  /** A step that lowers a stock drops no line. */
  lemma LoweringStepKeepsLines(db: Db, job: Job, i: Id)
    requires (forall st :: st in job.rest ==> JobStmt(st)) && FreshCatalog(db.catalog)
    requires var d := StepJob(db, job).db.catalog;
      i in db.catalog.infos.rows && i in d.infos.rows && d.infos.rows[i].quantity < db.catalog.infos.rows[i].quantity
    ensures StepJob(db, job).db.sales == db.sales
  {
    var st := job.rest[0];
    assert st in job.rest;
    StmtKeepsRows(Session(db, job.regs, None), st);
  }

  lemma LoweringKeepsLines(y: System, e: Event, i: Id)
    requires ValidSystem(y) && !e.Ask?
    requires var c, d := y.db.catalog, Next(y, e).db.catalog;
      i in c.infos.rows && i in d.infos.rows && d.infos.rows[i].quantity < c.infos.rows[i].quantity
    ensures Next(y, e).db.sales == y.db.sales
  {
    match e
    case LoadStep(k) =>
      if k < |y.loads| {
        assert LoadJob(y.loads[k]);
        LoweringStepKeepsLines(y.db, y.loads[k], i);
      }
    case WorkerStep => LoweringStepKeepsLines(y.db, y.worker, i);
    case _ =>
  }

  /** The request that an event lowering the stock of row i makes a fool of. */
  ghost function AllOf(y: System, i: Id): Event
    requires i in y.db.catalog.infos.rows
  {
    Ask(Newcomer(y.db.sales), AddToCart(Some(i), Given(y.db.catalog.infos.rows[i].quantity)))
  }

  lemma RequestIsValid(y: System, e: Event)
    requires ValidSystem(y)
    ensures ValidSystem(Next(y, e))
  {
    NextKeepsValid(y, e);
  }

  lemma LoweringBreaks(y: System, e: Event, i: Id)
    requires ValidSystem(y) && !e.Ask?
    requires var c, d := y.db.catalog, Next(y, e).db.catalog;
      i in c.infos.rows && i in d.infos.rows && d.infos.rows[i].quantity < c.infos.rows[i].quantity
    ensures !StockCovers(Next(Next(y, AllOf(y, i)), e).db)
  {
    var a := AllOf(y, i);
    var z := Next(y, a);
    NextKeepsDb(y, e);
    NewcomerHasNoBasket(y.db.sales);
    TakesAll(y.db.catalog.infos.rows, y.db.sales, a.user, i);
    RequestThenEvent(y, a.user, a.request, e);
    RequestIsValid(y, a);
    LoweringKeepsLines(z, e, i);
    var w, l := Next(z, e).db, y.db.sales.lines.next;
    assert l in w.sales.lines.rows && w.sales.lines.rows[l] == Line(y.db.sales.orders.next, i, y.db.catalog.infos.rows[i].quantity);
    assert i in w.catalog.infos.rows;
  }

  lemma CoveredAfterRequest(y: System, user: Id, r: Request, e: Event)
    requires ValidSystem(y) && StockCovers(y.db) && !e.Ask? && LowersNoStock(y.db.catalog, Next(y, e).db.catalog)
    ensures StockCovers(Next(Next(y, Ask(user, r)), e).db)
  {
    var z := Next(y, Ask(user, r));
    RequestKeepsStockCover(y.db.catalog.infos.rows, y.db, user, r);
    RequestIsValid(y, Ask(user, r));
    RequestThenEvent(y, user, r, e);
    RequestIsValid(z, e);
    NextKeepsStockCover(z, e, Next(z, e).db);
  }

  /**
   An event of an import, a load or an upload keeps every line within stock, whatever request comes just
   before it, if and only if it lowers the stock of no row that it keeps.
   */
  lemma SafeExactly(y: System, e: Event)
    requires ValidSystem(y) && StockCovers(y.db) && !e.Ask?
    ensures LowersNoStock(y.db.catalog, Next(y, e).db.catalog) <==>
      forall user, r :: StockCovers(Next(Next(y, Ask(user, r)), e).db)
  {
    var c, d := y.db.catalog, Next(y, e).db.catalog;
    if LowersNoStock(c, d) {
      forall user, r ensures StockCovers(Next(Next(y, Ask(user, r)), e).db) { CoveredAfterRequest(y, user, r, e); }
    } else {
      var i :| i in c.infos.rows && i in d.infos.rows && d.infos.rows[i].quantity < c.infos.rows[i].quantity;
      LoweringBreaks(y, e, i);
      var a := AllOf(y, i);
      assert Next(y, Ask(a.user, a.request)) == Next(y, a);
    }
  }

  // ---------- A load that lowers a stock ----------

  lemma ItemPrograms()
    ensures LoadProgram(ItemFile([Item(10), Item(3)]), None) ==
      LoadProgram(ItemFile([Item(10)]), None) + [RowStmts(Item(3))[0], RowStmts(Item(3))[1]]
  {
    var one, two := [Item(10)], [Item(10), Item(3)];
    assert two == one + [Item(3)];
    LoadGoodsAppend(one, [Item(3)]);
    assert LoadGoods([Item(3)]) == LoadGood(Item(3)) == RowStmts(Item(3));
    assert RowStmts(Item(3)) == [RowStmts(Item(3))[0], RowStmts(Item(3))[1]];
  }

  /** The second mention finds the product and overwrites the row. */
  lemma SecondItem(u: Session, i: Id)
    requires u.error.None? && ValidCatalog(u.db.catalog) && u.regs.shop in u.db.catalog.shops.rows && HasProduct(u.db.catalog, "P")
    requires Lookup(InfosAt(u.db.catalog.infos.rows, u.regs.shop, 1)) == One(i)
    ensures var one, two := RowStmts(Item(3))[0], RowStmts(Item(3))[1]; var s1 := Exec(u, one); var d := Exec(s1, two).db.catalog;
      && s1.error.None? && s1.db == u.db && i in d.infos.rows && d.infos.rows[i].quantity == 3
  {
    var s1 := Exec(u, RowStmts(Item(3))[0]);
    ProductRuns(u, "P", 1);
    OfferRuns(s1, Item(3));
  }

  /** A load that starts now and runs for n statements. */
  lemma LoadRuns(f: PriceFile, n: nat)
    requires n <= |LoadProgram(f, None)| && Run(Begin(EMPTY_DB), LoadProgram(f, None)[..n]).error.None?
    ensures var y := Play(EMPTY_SYSTEM, [StartLoad(f, None)] + Repeat(LoadStep(0), n)); var s := Run(Begin(EMPTY_DB), LoadProgram(f, None)[..n]);
      && ValidSystem(y) && y.db == s.db
      && |y.loads| == 1 && y.loads[0].regs == s.regs && y.loads[0].rest == LoadProgram(f, None)[n..]
  {
    var start, steps := StartLoad(f, None), Repeat(LoadStep(0), n);
    var z := Next(EMPTY_SYSTEM, start);
    LoadStepsPlay(z, 0, n);
    StepsRun(z.db, z.loads[0], n);
    assert ([start] + steps)[1..] == steps;
    EveryRunIsValid([start] + steps);
  }

  /** Just before the second mention is written. */
  lemma BeforeSecond() returns (n: nat, i: Id)
    ensures var f, two := ItemFile([Item(10), Item(3)]), RowStmts(Item(3))[1];
      && n <= |LoadProgram(f, None)| && LoadProgram(f, None)[n..] == [two]
      && var s := Run(Begin(EMPTY_DB), LoadProgram(f, None)[..n]);
      && s.error.None? && i in s.db.catalog.infos.rows && s.db.catalog.infos.rows[i].quantity == 10
      && i in Exec(s, two).db.catalog.infos.rows && Exec(s, two).db.catalog.infos.rows[i].quantity == 3
  {
    var f, p := ItemFile([Item(10), Item(3)]), LoadProgram(ItemFile([Item(10)]), None);
    var one, two := RowStmts(Item(3))[0], RowStmts(Item(3))[1];
    ItemPrograms();
    i := FirstItem();
    n := |p| + 1;
    var u := Run(Begin(EMPTY_DB), p);
    SecondItem(u, i);
    assert LoadProgram(f, None)[..n] == p + [one] && [one] == [one] + [];
    RunAppend(Begin(EMPTY_DB), p, [one]);
    RunStep(u, one, []);
  }

  /** A step that lowers a stock comes after a request for all of it, in a run from the start. */
  lemma LoweringRun(fs: seq<Event>, e: Event, i: Id)
    requires !e.Ask? && ValidSystem(Play(EMPTY_SYSTEM, fs))
    requires var y := Play(EMPTY_SYSTEM, fs); var c, d := y.db.catalog, Next(y, e).db.catalog;
      i in c.infos.rows && i in d.infos.rows && d.infos.rows[i].quantity < c.infos.rows[i].quantity
    ensures !StockCovers(Play(EMPTY_SYSTEM, fs + [AllOf(Play(EMPTY_SYSTEM, fs), i), e]).db)
  {
    var y := Play(EMPTY_SYSTEM, fs);
    LoweringBreaks(y, e, i);
    PlayAppend(EMPTY_SYSTEM, fs, [AllOf(y, i), e]);
    TwoEvents(y, AllOf(y, i), e);
  }

  ghost function UpToSecond(n: nat): seq<Event> {
    [StartLoad(ItemFile([Item(10), Item(3)]), None)] + Repeat(LoadStep(0), n)
  }

  /** The load's next step overwrites the ten by a three. */
  lemma SecondMention() returns (n: nat, i: Id)
    ensures var y := Play(EMPTY_SYSTEM, UpToSecond(n)); var c, d := y.db.catalog, Next(y, LoadStep(0)).db.catalog;
      && ValidSystem(y)
      && i in c.infos.rows && i in d.infos.rows && d.infos.rows[i].quantity < c.infos.rows[i].quantity
  {
    var f := ItemFile([Item(10), Item(3)]);
    n, i := BeforeSecond();
    LoadRuns(f, n);
    var y := Play(EMPTY_SYSTEM, UpToSecond(n));
    assert Session(y.db, y.loads[0].regs, None) == Run(Begin(EMPTY_DB), LoadProgram(f, None)[..n]);
  }

  predicate WorkerEvent(e: Event) {
    e.WorkerTakes? || e.WorkerStep? || e.WorkerDies?
  }

  /** Two mentions of one id, and a customer in between: a line above its stock, without any `do_import`. */
  lemma LoadLowersStock() returns (es: seq<Event>)
    ensures |es| > 0 && es[0] == StartLoad(ItemFile([Item(10), Item(3)]), None)
    ensures (forall e :: e in es ==> !WorkerEvent(e)) && !StockCovers(Play(EMPTY_SYSTEM, es).db)
  {
    var n, i := SecondMention();
    LoweringRun(UpToSecond(n), LoadStep(0), i);
    es := UpToSecond(n) + [AllOf(Play(EMPTY_SYSTEM, UpToSecond(n)), i), LoadStep(0)];
    RepeatedSteps(0, n);
  }

  lemma TwoEvents(y: System, d: Event, e: Event)
    ensures Play(y, [d, e]) == Next(Next(y, d), e)
  {
    assert [d, e][1..] == [e] && [e][1..] == [];
    assert Play(y, [d, e]) == Play(Next(y, d), [e]) == Play(Next(Next(y, d), e), []);
  }

  lemma {:induction false} RepeatedSteps(k: nat, n: nat)
    ensures forall e :: e in Repeat(LoadStep(k), n) ==> !WorkerEvent(e)
    decreases n
  {
    if n > 0 { RepeatedSteps(k, n - 1); }
  }
}
