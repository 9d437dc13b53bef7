/** Properties of whole runs: the life of orders and of import tasks, and the bound on order lines. */
module Runs {
  import opened Prelude
  import opened Tables
  import opened Orm
  import opened Programs
  import opened Cart
  import opened ImportAgain
  import opened System
  import opened Safety

  // ---------- No lookup is ambiguous ----------

  /** In a valid store no statement of an importer, whatever its local variables hold, finds more than one row. */
  lemma NeverMultiple(s: Session, st: Stmt)
    requires ValidCatalog(s.db.catalog) && JobStmt(st) && s.error.None? && st != Raise(MultipleObjectsReturned)
    ensures Exec(s, st).error != Some(MultipleObjectsReturned)
  {
    var c, r := s.db.catalog, s.regs;
    match st
    case OpenShop(name, _) => if name.Some? { OneShop(c, name.value); }
    case OpenProduct(name, _) => if name.Some? { OneProduct(c, name.value); }
    case PutOffer(ext, _, _, _, _) => OneOffer(c, r.shop, ext);
    case PatchOffer(ext, _, _) => if ext.Some? { OneOffer(c, r.shop, ext.value); }
    case FindOffer(ext) => if ext.Some? { OneOffer(c, r.shop, ext.value); }
    case OpenParameter(name) => OneParameter(c, name);
    case PutValue(_) => OneValue(c, r.info, r.parameter);
    case _ =>
  }

  // ---------- Orders ----------

  /** Orders stay, with their user; a confirmed order's row is final. */
  ghost predicate OrdersAdvance(s: Sales, t: Sales) {
    forall o :: o in s.orders.rows ==>
      && o in t.orders.rows && t.orders.rows[o].user == s.orders.rows[o].user
      && (s.orders.rows[o].state == Confirmed ==> t.orders.rows[o] == s.orders.rows[o])
  }

  lemma NextAdvances(y: System, e: Event)
    requires ValidSystem(y)
    ensures OrdersAdvance(y.db.sales, Next(y, e).db.sales)
  {
    match e
    case Ask(user, r) => HandleOrders(y.db.catalog.infos.rows, y.db.sales, user, r);
    case LoadStep(k) => if k < |y.loads| { StepLines(y.db, y.loads[k]); }
    case WorkerStep => StepLines(y.db, y.worker);
    case _ =>
  }

  /** Over any run an order only moves from basket to confirmed, once. */
  lemma {:induction false} PlayAdvances(y: System, es: seq<Event>)
    requires ValidSystem(y)
    ensures OrdersAdvance(y.db.sales, Play(y, es).db.sales)
    decreases |es|
  {
    if es != [] {
      NextAdvances(y, es[0]);
      NextKeepsValid(y, es[0]);
      PlayAdvances(Next(y, es[0]), es[1..]);
    }
  }

  /** An order's row and its lines are the same in both. */
  ghost predicate SameOrder(s: Sales, t: Sales, o: Id) {
    && o in t.orders.rows && o in s.orders.rows && t.orders.rows[o] == s.orders.rows[o]
    && (forall l :: l in LinesOf(s.lines.rows, o) <==> l in LinesOf(t.lines.rows, o))
    && (forall l :: l in LinesOf(s.lines.rows, o) ==> t.lines.rows[l] == s.lines.rows[l])
  }

  /** A request alters no order but the asking user's own basket: no confirmed order, and nobody else's basket. */
  lemma RequestKeepsOtherOrders(infos: map<Id, Info>, s: Sales, user: Id, r: Request, o: Id)
    requires ValidSales(s) && o in s.orders.rows && o !in Baskets(s.orders.rows, user)
    ensures SameOrder(s, Handle(infos, s, user, r).sales, o)
  {
    HandleOrders(infos, s, user, r);
    OneBasket(s, user);
    if r.AddToCart? {
      match Lookup(Baskets(s.orders.rows, user))
      case One(b) =>
        assert b in Baskets(s.orders.rows, user);
        AddKeepsOthers(infos, s, b, r.info, r.quantity.GetOr(1), o);
      case NotFound => AddKeepsOthers(infos, NewBasket(s, user), s.orders.next, r.info, r.quantity.GetOr(1), o);
      case _ =>
    } else if Lookup(Baskets(s.orders.rows, user)).One? {
      assert Lookup(Baskets(s.orders.rows, user)).id in Baskets(s.orders.rows, user);
    }
  }

  lemma AddKeepsOthers(infos: map<Id, Info>, s: Sales, b: Id, info: Option<int>, quantity: Option<int>, o: Id)
    requires s.lines.Fresh() && o != b
    ensures var t := Add(infos, s, b, info, quantity).sales;
      && (forall l :: l in LinesOf(s.lines.rows, o) <==> l in LinesOf(t.lines.rows, o))
      && (forall l :: l in LinesOf(s.lines.rows, o) ==> t.lines.rows[l] == s.lines.rows[l])
  {
    if !Unset(info) && Lookup(LinesAt(s.lines.rows, b, info.value)).One? {
      assert Lookup(LinesAt(s.lines.rows, b, info.value)).id in LinesAt(s.lines.rows, b, info.value);
    }
  }

  /**
   In every run from the empty system: one basket per user at most; a user's confirmed orders are exactly
   the user's successful confirmations, none confirmed twice; each has a contact of the same user.
   */
  lemma OrderLifeCycle(es: seq<Event>, user: Id)
    ensures var y := Play(EMPTY_SYSTEM, es); var rows := y.db.sales.orders.rows;
      && !Lookup(Baskets(rows, user)).Multiple?
      && (forall o :: (user, o) in y.confirmations <==> IsOrderOf(y.db.sales, user, o))
      && (forall i, j :: 0 <= i < j < |y.confirmations| ==> y.confirmations[i].1 != y.confirmations[j].1)
      && (forall o :: IsOrderOf(y.db.sales, user, o) ==>
            rows[o].contact.Some? && OwnContact(y.db.sales, user, rows[o].contact))
  {
    var y := Play(EMPTY_SYSTEM, es);
    EveryRunIsValid(es);
    OneBasket(y.db.sales, user);
    forall o ensures (user, o) in y.confirmations <==> IsOrderOf(y.db.sales, user, o) {
      if (user, o) in y.confirmations {
        var c := (user, o);
        assert IsOrderOf(y.db.sales, c.0, c.1);
      }
    }
  }

  // ---------- Stock ----------

  /** Every line holds between nothing and the largest stock its product row ever had. */
  lemma LinesWithinPeak(es: seq<Event>, l: Id)
    requires l in Play(EMPTY_SYSTEM, es).db.sales.lines.rows
    ensures var y := Play(EMPTY_SYSTEM, es); var line := y.db.sales.lines.rows[l];
      line.info in y.peak && 0 <= line.quantity <= y.peak[line.info]
  {
    EveryRunIsValid(es);
  }

  /** The recorded peak is the largest stock: attained when the row appears, raised by every larger stock, never lowered. */
  lemma PeakIsHighWater(y: System, e: Event, i: Id)
    requires ValidSystem(y)
    ensures var z := Next(y, e);
      && (i in y.peak ==> i in z.peak && y.peak[i] <= z.peak[i])
      && (i in z.peak ==>
            (i in y.peak && z.peak[i] == y.peak[i]) ||
            (i in z.db.catalog.infos.rows && z.peak[i] == z.db.catalog.infos.rows[i].quantity))
  {}

  ghost predicate StockCovers(db: Db) {
    forall l :: l in db.sales.lines.rows ==>
      var line := db.sales.lines.rows[l];
      line.info in db.catalog.infos.rows && line.quantity <= db.catalog.infos.rows[line.info].quantity
  }

  /** No row that survives the event has less stock than before. */
  ghost predicate LowersNoStock(c: Catalog, d: Catalog) {
    forall i :: i in c.infos.rows && i in d.infos.rows ==> c.infos.rows[i].quantity <= d.infos.rows[i].quantity
  }

  ghost predicate NeverLowers(y: System, es: seq<Event>)
    decreases |es|
  {
    es == [] || (LowersNoStock(y.db.catalog, Next(y, es[0]).db.catalog) && NeverLowers(Next(y, es[0]), es[1..]))
  }

  /** A change of the catalogue that lowers no stock and keeps the rows of the lines that remain. */
  lemma StockStillCovers(a: Db, b: Db)
    requires StockCovers(a) && LowersNoStock(a.catalog, b.catalog) && LinesListed(b.catalog, b.sales)
    requires forall l :: l in b.sales.lines.rows ==> l in a.sales.lines.rows && b.sales.lines.rows[l] == a.sales.lines.rows[l]
    ensures StockCovers(b)
  {}

  lemma RequestKeepsStockCover(infos: map<Id, Info>, db: Db, user: Id, r: Request)
    requires StockCovers(db) && infos == db.catalog.infos.rows
    ensures StockCovers(db.(sales := Handle(infos, db.sales, user, r).sales))
  {
    HandleWithinStock(infos, db.sales, user, r);
  }

  /** Imports write no order line; they only take lines away. */
  lemma ImportsOnlyDropLines(y: System, e: Event)
    requires !e.Ask?
    ensures var s, t := y.db.sales, Next(y, e).db.sales;
      forall l :: l in t.lines.rows ==> l in s.lines.rows && t.lines.rows[l] == s.lines.rows[l]
  {
    match e
    case LoadStep(k) => if k < |y.loads| { StepLines(y.db, y.loads[k]); }
    case WorkerStep => StepLines(y.db, y.worker);
    case _ =>
  }

  lemma NextKeepsStockCover(y: System, e: Event, z: Db)
    requires StockCovers(y.db) && z == Next(y, e).db && LowersNoStock(y.db.catalog, z.catalog) && LinesListed(z.catalog, z.sales)
    ensures StockCovers(z)
  {
    if e.Ask? {
      RequestKeepsStockCover(y.db.catalog.infos.rows, y.db, e.user, e.request);
    } else {
      ImportsOnlyDropLines(y, e);
      StockStillCovers(y.db, z);
    }
  }

  lemma {:induction false} CoverageKept(y: System, es: seq<Event>)
    requires ValidSystem(y) && StockCovers(y.db) && NeverLowers(y, es)
    ensures StockCovers(Play(y, es).db)
    decreases |es|
  {
    if es != [] {
      NextKeepsValid(y, es[0]);
      NextKeepsStockCover(y, es[0], Next(y, es[0]).db);
      CoverageKept(Next(y, es[0]), es[1..]);
    }
  }

  /** If no import lowers a stock, no line ever exceeds the current stock. */
  lemma LinesWithinStock(es: seq<Event>)
    requires NeverLowers(EMPTY_SYSTEM, es)
    ensures StockCovers(Play(EMPTY_SYSTEM, es).db)
  {
    CoverageKept(EMPTY_SYSTEM, es);
  }

  // ---------- Import tasks ----------

  /** Tasks stay, with their file; processed is for good. */
  ghost predicate TasksAdvance(a: Table<Task>, b: Table<Task>) {
    forall t :: t in a.rows ==>
      t in b.rows && b.rows[t].file == a.rows[t].file && (a.rows[t].processed ==> b.rows[t].processed)
  }

  lemma LoadKeepsTasks(y: System, k: nat)
    requires ValidSystem(y)
    ensures Next(y, LoadStep(k)).db.tasks == y.db.tasks
  {
    if k < |y.loads| {
      assert LoadJob(y.loads[k]);
      LoadStepTasks(y.db, y.loads[k]);
    }
  }

  lemma WorkerAdvancesTasks(y: System)
    requires ValidSystem(y)
    ensures TasksAdvance(y.db.tasks, Next(y, WorkerStep).db.tasks)
  {
    if y.worker.rest != [] { ExecTasks(y.db, y.worker); }
  }

  lemma NextAdvancesTasks(y: System, e: Event)
    requires ValidSystem(y)
    ensures TasksAdvance(y.db.tasks, Next(y, e).db.tasks)
  {
    if e.LoadStep? {
      LoadKeepsTasks(y, e.job);
    } else if e.WorkerStep? {
      WorkerAdvancesTasks(y);
    }
  }

  lemma {:induction false} PlayAdvancesTasks(y: System, es: seq<Event>)
    requires ValidSystem(y)
    ensures TasksAdvance(y.db.tasks, Play(y, es).db.tasks)
    decreases |es|
  {
    if es != [] {
      NextAdvancesTasks(y, es[0]);
      NextKeepsValid(y, es[0]);
      PlayAdvancesTasks(Next(y, es[0]), es[1..]);
    }
  }

  /** What two moments of a run say about one task. */
  ghost predicate TaskFollows(a: Table<Task>, b: Table<Task>, t: Id) {
    && t in a.rows && t in b.rows && b.rows[t].file == a.rows[t].file
    && (a.rows[t].processed ==> b.rows[t].processed)
    && b.rows[t].counts == if b.rows[t].processed then CountsOf(b.rows[t].file) else NO_STATS
  }

  /**
   Over any run: the processed flag never returns to false, a processed task reports the sizes of its
   file, and an unprocessed one reports zeros.
   */
  lemma TaskProtocol(y: System, es: seq<Event>, t: Id)
    requires ValidSystem(y) && t in y.db.tasks.rows
    ensures TaskFollows(y.db.tasks, Play(y, es).db.tasks, t)
  {
    PlayAdvancesTasks(y, es);
    PlayKeepsValid(y, es);
  }

  // ---------- The queue ----------

  /** The task of an accepted trigger. */
  ghost function AcceptedNow(y: System, e: Event): seq<Id> {
    if e.Trigger? && Answer(y, e).status == 200 then [e.triggered.value] else []
  }

  /** The task the worker turns to. */
  ghost function TakenNow(y: System, e: Event): seq<Id> {
    if e.WorkerTakes? && y.queue != [] && y.worker.rest == [] then [y.queue[0]] else []
  }

  ghost function AcceptedTriggers(y: System, es: seq<Event>): seq<Id>
    decreases |es|
  {
    if es == [] then [] else AcceptedNow(y, es[0]) + AcceptedTriggers(Next(y, es[0]), es[1..])
  }

  ghost function Taken(y: System, es: seq<Event>): seq<Id>
    decreases |es|
  {
    if es == [] then [] else TakenNow(y, es[0]) + Taken(Next(y, es[0]), es[1..])
  }

  lemma QueueStep(y: System, e: Event)
    ensures y.queue + AcceptedNow(y, e) == TakenNow(y, e) + Next(y, e).queue
  {}

  lemma Chain(q: seq<Id>, a: seq<Id>, later: seq<Id>, t: seq<Id>, r: seq<Id>, rest: seq<Id>, end: seq<Id>)
    requires q + a == t + r && r + later == rest + end
    ensures q + (a + later) == (t + rest) + end
  {
    assert q + (a + later) == (q + a) + later == t + (r + later);
  }

  /** Nothing is lost, repeated or reordered: what was queued is taken or still queued. */
  lemma {:induction false} FirstInFirstOut(y: System, es: seq<Event>)
    ensures y.queue + AcceptedTriggers(y, es) == Taken(y, es) + Play(y, es).queue
    decreases |es|
  {
    if es != [] {
      var z := Next(y, es[0]);
      QueueStep(y, es[0]);
      FirstInFirstOut(z, es[1..]);
      Chain(y.queue, AcceptedNow(y, es[0]), AcceptedTriggers(z, es[1..]), TakenNow(y, es[0]), z.queue, Taken(z, es[1..]), Play(z, es[1..]).queue);
    }
  }

  lemma StillProcessed(y: System, e: Event, t: Id)
    requires ValidSystem(y) && t in y.db.tasks.rows && y.db.tasks.rows[t].processed
    ensures ValidSystem(Next(y, e)) && t in Next(y, e).db.tasks.rows && Next(y, e).db.tasks.rows[t].processed
  {
    NextAdvancesTasks(y, e);
    NextKeepsValid(y, e);
  }

  lemma ProcessedRejected(y: System, e: Event, t: Id)
    requires t in y.db.tasks.rows && y.db.tasks.rows[t].processed
    ensures t !in AcceptedNow(y, e)
  {}

  /** Once a task is processed no trigger for it is accepted any more. */
  lemma {:induction false} ProcessedStaysOut(y: System, es: seq<Event>, t: Id)
    requires ValidSystem(y) && t in y.db.tasks.rows && y.db.tasks.rows[t].processed
    ensures t !in AcceptedTriggers(y, es)
    decreases |es|
  {
    if es != [] {
      StillProcessed(y, es[0], t);
      ProcessedRejected(y, es[0], t);
      ProcessedStaysOut(Next(y, es[0]), es[1..], t);
    }
  }

  /** From the empty system: the accepted triggers are the tasks taken and then the queue, all of them uploaded before. */
  lemma QueueProtocol(es: seq<Event>)
    ensures var y := Play(EMPTY_SYSTEM, es);
      && AcceptedTriggers(EMPTY_SYSTEM, es) == Taken(EMPTY_SYSTEM, es) + y.queue
      && forall t :: t in y.queue ==> t in y.db.tasks.rows
  {
    FirstInFirstOut(EMPTY_SYSTEM, es);
    assert EMPTY_SYSTEM.queue + AcceptedTriggers(EMPTY_SYSTEM, es) == AcceptedTriggers(EMPTY_SYSTEM, es);
    EveryRunIsValid(es);
  }
}
