/** What holds after every single event of every run from the empty system. */
module Safety {
  import opened Prelude
  import opened Tables
  import opened Orm
  import opened Programs
  import opened Cart
  import opened ImportFrame
  import opened ImportAgain
  import opened ImportCounts
  import opened Recovery
  import opened System

  // ---------- Statements of jobs ----------

  predicate JobStmt(st: Stmt) {
    LoadStmt(st) || ImportStmt(st)
  }

  lemma StmtKeepsCatalog(s: Session, st: Stmt)
    requires JobStmt(st) && ValidCatalog(s.db.catalog)
    ensures ValidCatalog(Exec(s, st).db.catalog)
  {
    if LoadStmt(st) { LoadStmtKeeps(s, st); } else { ImportStmtKeeps(s, st); }
  }

  /** Product rows vanish only by a deletion that takes their order lines along. */
  lemma StmtKeepsRows(s: Session, st: Stmt)
    requires JobStmt(st) && FreshCatalog(s.db.catalog)
    ensures var c, d := s.db.catalog, Exec(s, st).db.catalog;
      forall i :: i in c.infos.rows && !(st.ClearOffers? && c.infos.rows[i].shop == s.regs.shop) ==> i in d.infos.rows
    ensures !st.ClearOffers? ==> Exec(s, st).db.sales == s.db.sales
    ensures st.ClearOffers? ==> Exec(s, st).db.sales == DropLines(s.db.sales, InfosOf(s.db.catalog.infos.rows, s.regs.shop))
    ensures !st.Finish? ==> Exec(s, st).db.tasks == s.db.tasks
  {}

  lemma ExecKeepsDb(s: Session, st: Stmt)
    requires JobStmt(st) && ValidDb(s.db)
    ensures ValidDb(Exec(s, st).db)
  {
    StmtKeepsCatalog(s, st);
    StmtKeepsRows(s, st);
    var t := Exec(s, st);
    forall l | l in t.db.sales.lines.rows ensures t.db.sales.lines.rows[l].info in t.db.catalog.infos.rows {
      var i := s.db.sales.lines.rows[l].info;
      assert i in s.db.catalog.infos.rows;
    }
  }

  lemma StepKeepsDb(db: Db, job: Job)
    requires ValidDb(db) && forall st :: st in job.rest ==> JobStmt(st)
    ensures ValidDb(StepJob(db, job).db)
  {
    if job.rest != [] {
      assert job.rest[0] in job.rest;
      ExecKeepsDb(Session(db, job.regs, None), job.rest[0]);
    }
  }

  lemma RequestKeepsDb(y: System, user: Id, r: Request)
    requires ValidDb(y.db)
    ensures ValidDb(AfterRequest(y, user, r).db)
  {
    HandleKeeps(y.db.catalog.infos.rows, y.db.sales, user, r);
  }

  lemma NextKeepsDb(y: System, e: Event)
    requires ValidSystem(y)
    ensures ValidDb(Next(y, e).db)
  {
    match e
    case Ask(user, r) => RequestKeepsDb(y, user, r);
    case LoadStep(k) =>
      if k < |y.loads| {
        assert LoadJob(y.loads[k]);
        StepKeepsDb(y.db, y.loads[k]);
      }
    case WorkerStep => StepKeepsDb(y.db, y.worker);
    case _ =>
  }

  // ---------- Jobs ----------

  lemma NextKeepsLoads(y: System, e: Event)
    requires ValidSystem(y)
    ensures forall j :: j in Next(y, e).loads ==> LoadJob(j)
  {
    match e
    case StartLoad(file, owner) => LoadProgramStmts(file, owner);
    case LoadStep(k) => if k < |y.loads| { assert LoadJob(y.loads[k]); }
    case LoadDies(k) => if k < |y.loads| { assert LoadJob(y.loads[k]); }
    case _ =>
  }

  lemma FreshTaskProgram(f: PriceFile, task: Id)
    ensures TaskProgram(ImportProgram(f, task), task)
  {
    ImportProgramStmts(f, task);
    ImportGoodsBody(OrEmpty(f.goods));
    ImportCategoriesBody(OrEmpty(f.categories));
    var body := ImportHead(f) + ImportTail(f);
    assert forall st :: st in body ==> !st.Finish?;
    var p := ImportProgram(f, task);
    assert forall k :: 0 <= k < |body| ==> p[k] == body[k] && body[k] in body;
  }

  lemma ExecTasks(db: Db, job: Job)
    requires WorkerJob(db, job) && TasksCounted(db) && job.rest != []
    ensures var s := Exec(Session(db, job.regs, None), job.rest[0]);
      TasksCounted(s.db) && s.db.tasks.rows.Keys == db.tasks.rows.Keys &&
      forall t :: t in db.tasks.rows ==> s.db.tasks.rows[t].file == db.tasks.rows[t].file
  {
    var st := job.rest[0];
    if st.Finish? {
      assert |job.rest| == 1 && job.rest == [st];
      assert NoRaise(job.rest);
      forall k: Kind ensures Counter(job.regs.stats, k) == Counter(CountsOf(db.tasks.rows[job.task].file), k) {
        CountOne(st, [], k);
        assert [st] + [] == job.rest;
      }
      SameCounters(job.regs.stats, CountsOf(db.tasks.rows[job.task].file));
    }
  }

  lemma SameCounters(a: Stats, b: Stats)
    requires forall k: Kind :: Counter(a, k) == Counter(b, k)
    ensures a == b
  {
    assert Counter(a, Products) == Counter(b, Products);
    assert Counter(a, Categories) == Counter(b, Categories);
    assert Counter(a, Parameters) == Counter(b, Parameters);
  }

  lemma WorkerStepKeeps(db: Db, job: Job)
    requires WorkerJob(db, job) && TasksCounted(db)
    ensures var t := StepJob(db, job); WorkerJob(t.db, t.job) && TasksCounted(t.db)
  {
    if job.rest != [] {
      ExecTasks(db, job);
      var t, st, s := StepJob(db, job), job.rest[0], Session(db, job.regs, None);
      assert forall x :: x in job.rest[1..] ==> x in job.rest;
      forall k | 0 <= k < |job.rest[1..]| && job.rest[1..][k].Finish?
        ensures job.rest[1..][k].task == job.task && k == |job.rest[1..]| - 1
      {
        assert job.rest[1..][k] == job.rest[k + 1];
      }
      if Exec(s, st).error.None? && NoRaise(job.rest[1..]) && job.rest[1..] != [] {
        assert job.rest == [st] + job.rest[1..];
        assert NoRaise(job.rest);
        forall k: Kind ensures Counter(t.job.regs.stats, k) + Count(t.job.rest, k) == Counter(CountsOf(db.tasks.rows[job.task].file), k) {
          ExecCounts(s, st, k);
          CountOne(st, job.rest[1..], k);
        }
      }
    }
  }

  /** A job other than the worker's writes no task row. */
  lemma LoadStepTasks(db: Db, job: Job)
    requires LoadJob(job)
    ensures StepJob(db, job).db.tasks == db.tasks
  {
    if job.rest != [] { assert job.rest[0] in job.rest; }
  }

  lemma NextKeepsWorker(y: System, e: Event)
    requires ValidSystem(y)
    ensures WorkerJob(Next(y, e).db, Next(y, e).worker) && TasksCounted(Next(y, e).db)
  {
    match e
    case LoadStep(k) =>
      if k < |y.loads| {
        assert LoadJob(y.loads[k]);
        LoadStepTasks(y.db, y.loads[k]);
      }
    case WorkerStep => WorkerStepKeeps(y.db, y.worker);
    case WorkerTakes =>
      if y.queue != [] && y.worker.rest == [] && y.queue[0] in y.db.tasks.rows {
        var t, file := y.queue[0], y.db.tasks.rows[y.queue[0]].file;
        FreshTaskProgram(file, t);
        if NoRaise(ImportProgram(file, t)) {
          forall k: Kind ensures Count(ImportProgram(file, t), k) == Counter(CountsOf(file), k) { ProgramCount(file, t, k); }
          forall k: Kind ensures Counter(NO_STATS, k) == 0 {}
        }
      }
    case _ =>
  }

  /** Tasks are never removed, so a queued one is there when its turn comes. */
  lemma NextKeepsQueue(y: System, e: Event)
    requires ValidSystem(y)
    ensures forall t :: t in Next(y, e).queue ==> t in Next(y, e).db.tasks.rows
  {
    match e
    case LoadStep(k) =>
      if k < |y.loads| {
        assert LoadJob(y.loads[k]);
        LoadStepTasks(y.db, y.loads[k]);
      }
    case WorkerStep => if y.worker.rest != [] { ExecTasks(y.db, y.worker); }
    case _ =>
  }

  // ---------- Stock ----------

  /** A request leaves a line alone or sets it to no more than the row's current stock. */
  lemma HandleWithinStock(infos: map<Id, Info>, s: Sales, user: Id, r: Request)
    ensures var t := Handle(infos, s, user, r).sales;
      forall l :: l in t.lines.rows ==>
        var line := t.lines.rows[l];
        (l in s.lines.rows && s.lines.rows[l] == line) || (line.info in infos && line.quantity <= infos[line.info].quantity)
  {
    if r.AddToCart? {
      match Lookup(Baskets(s.orders.rows, user))
      case One(b) => AddWithinStock(infos, s, b, r.info, r.quantity.GetOr(1));
      case NotFound => AddWithinStock(infos, NewBasket(s, user), s.orders.next, r.info, r.quantity.GetOr(1));
      case _ =>
    }
  }

  lemma AddWithinStock(infos: map<Id, Info>, s: Sales, b: Id, info: Option<int>, quantity: Option<int>)
    ensures var t := Add(infos, s, b, info, quantity).sales;
      forall l :: l in t.lines.rows ==>
        var line := t.lines.rows[l];
        (l in s.lines.rows && s.lines.rows[l] == line) || (line.info in infos && line.quantity <= infos[line.info].quantity)
  {
    if !Unset(info) && Lookup(LinesAt(s.lines.rows, b, info.value)).One? {
      assert Lookup(LinesAt(s.lines.rows, b, info.value)).id in LinesAt(s.lines.rows, b, info.value);
    }
  }

  lemma StepLines(db: Db, job: Job)
    ensures var t := StepJob(db, job).db;
      forall l :: l in t.sales.lines.rows ==> l in db.sales.lines.rows && t.sales.lines.rows[l] == db.sales.lines.rows[l]
    ensures StepJob(db, job).db.sales.orders == db.sales.orders && StepJob(db, job).db.sales.contacts == db.sales.contacts
  {}

  lemma NextKeepsPeaks(y: System, e: Event)
    requires ValidSystem(y)
    ensures PeaksCover(Next(y, e))
  {
    match e
    case Ask(user, r) => HandleWithinStock(y.db.catalog.infos.rows, y.db.sales, user, r);
    case LoadStep(k) => if k < |y.loads| { StepLines(y.db, y.loads[k]); }
    case WorkerStep => StepLines(y.db, y.worker);
    case _ =>
  }

  // ---------- Confirmations ----------

  /** Orders change by opening one basket, or by confirming one, and not otherwise. */
  lemma HandleOrders(infos: map<Id, Info>, s: Sales, user: Id, r: Request)
    ensures var h := Handle(infos, s, user, r); var t := h.sales.orders;
      if r.ConfirmOrder? && h.response.status == 200 then
        OwnBasket(s, user, r.basket) && t == s.orders.Update(r.basket.value, Order(user, Confirmed, r.contact))
      else t == s.orders || t == s.orders.Insert(Order(user, Basket, None))
  {}

  /** One more confirmation, of an order that was a basket. */
  lemma ConfirmedOnce(y: System, z: System, user: Id, o: Id)
    requires ConfirmationsMatch(y) && o in Baskets(y.db.sales.orders.rows, user)
    requires z.confirmations == y.confirmations + [(user, o)]
    requires IsOrderOf(z.db.sales, user, o) && z.db.sales.orders.rows == y.db.sales.orders.rows[o := z.db.sales.orders.rows[o]]
    ensures ConfirmationsMatch(z)
  {
    forall i | 0 <= i < |y.confirmations| ensures y.confirmations[i].1 != o {
      assert y.confirmations[i] in y.confirmations;
    }
    assert forall c :: c in z.confirmations ==> c in y.confirmations || c == (user, o);
  }

  /** The same confirmed orders and no news. */
  lemma SameConfirmed(y: System, z: System)
    requires ConfirmationsMatch(y) && z.confirmations == y.confirmations
    requires forall user, o :: IsOrderOf(y.db.sales, user, o) <==> IsOrderOf(z.db.sales, user, o)
    ensures ConfirmationsMatch(z)
  {
    forall o | o in z.db.sales.orders.rows && z.db.sales.orders.rows[o].state == Confirmed
      ensures (z.db.sales.orders.rows[o].user, o) in z.confirmations
    {
      assert IsOrderOf(z.db.sales, z.db.sales.orders.rows[o].user, o);
    }
  }

  lemma RequestKeepsConfirmations(y: System, user: Id, r: Request)
    requires ValidSales(y.db.sales) && ConfirmationsMatch(y)
    ensures ConfirmationsMatch(AfterRequest(y, user, r))
  {
    HandleOrders(y.db.catalog.infos.rows, y.db.sales, user, r);
    var z := AfterRequest(y, user, r);
    if z.confirmations != y.confirmations {
      ConfirmedOnce(y, z, user, r.basket.value);
    } else {
      SameConfirmed(y, z);
    }
  }

  lemma NextKeepsConfirmations(y: System, e: Event)
    requires ValidSystem(y)
    ensures ConfirmationsMatch(Next(y, e))
  {
    match e
    case Ask(user, r) => RequestKeepsConfirmations(y, user, r);
    case LoadStep(k) => if k < |y.loads| { StepLines(y.db, y.loads[k]); }
    case WorkerStep => StepLines(y.db, y.worker);
    case _ =>
  }

  // ---------- All runs ----------

  lemma NextKeepsValid(y: System, e: Event)
    requires ValidSystem(y)
    ensures ValidSystem(Next(y, e))
  {
    NextKeepsDb(y, e);
    NextKeepsLoads(y, e);
    NextKeepsWorker(y, e);
    NextKeepsQueue(y, e);
    NextKeepsPeaks(y, e);
    NextKeepsConfirmations(y, e);
  }

  lemma {:induction false} PlayKeepsValid(y: System, es: seq<Event>)
    requires ValidSystem(y)
    ensures ValidSystem(Play(y, es))
    decreases |es|
  {
    if es != [] {
      NextKeepsValid(y, es[0]);
      PlayKeepsValid(Next(y, es[0]), es[1..]);
    }
  }

  /** Every reachable state, after every single write, satisfies the whole invariant. */
  lemma EveryRunIsValid(es: seq<Event>)
    ensures ValidSystem(Play(EMPTY_SYSTEM, es))
  {
    PlayKeepsValid(EMPTY_SYSTEM, es);
  }
}
