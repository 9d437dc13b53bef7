/**
 Importing a file again later.  In between anything may happen in the running system: requests, loads
 and imports of other files, complete or broken, uploads and triggers.  As long as the list of the
 file's own shop is what it was, the second import writes nothing.
 */
module ImportLater {
  import opened Prelude
  import opened Tables
  import opened Programs
  import opened PriceView
  import opened Recovery
  import opened ImportFrame
  import opened ImportAgain
  import opened ImportSettles
  import opened ImportTwice
  import opened ImportRetry
  import opened System
  import opened Safety
  import opened Runs
  import opened Uninterrupted

  // ---------- What every run leaves in place ----------

  lemma StepGrows(db: Db, job: Job)
    requires ValidCatalog(db.catalog) && forall st :: st in job.rest ==> JobStmt(st)
    ensures Grows(db.catalog, StepJob(db, job).db.catalog)
  {
    if job.rest != [] {
      var s, st := Session(db, job.regs, None), job.rest[0];
      assert st in job.rest;
      if LoadStmt(st) { LoadStmtKeeps(s, st); } else { ImportStmtGrows(s, st); }
    }
  }

  lemma ImportStmtGrows(s: Session, st: Stmt)
    requires ImportStmt(st) && FreshCatalog(s.db.catalog)
    ensures Grows(s.db.catalog, Exec(s, st).db.catalog)
  {
    ImportStmtFrame(s, st);
    assert forall k :: k in s.db.catalog.categories.rows.Keys ==> k in Exec(s, st).db.catalog.categories.rows.Keys;
  }

  lemma LoadStepGrows(y: System, k: nat)
    requires ValidSystem(y)
    ensures Grows(y.db.catalog, Next(y, LoadStep(k)).db.catalog)
  {
    if k < |y.loads| {
      assert LoadJob(y.loads[k]);
      StepGrows(y.db, y.loads[k]);
    }
  }

  lemma WorkerStepGrows(y: System)
    requires ValidSystem(y)
    ensures Grows(y.db.catalog, Next(y, WorkerStep).db.catalog)
  {
    StepGrows(y.db, y.worker);
  }

  /** No event takes away a category, a product name or a shop. */
  lemma NextGrows(y: System, e: Event)
    requires ValidSystem(y)
    ensures Grows(y.db.catalog, Next(y, e).db.catalog)
  {
    if e.LoadStep? {
      LoadStepGrows(y, e.job);
    } else if e.WorkerStep? {
      WorkerStepGrows(y);
    }
  }

  lemma GrowsOn(c: Catalog, d: Catalog, e: Catalog)
    requires Grows(c, d) && Grows(d, e)
    ensures Grows(c, e)
  {}

  lemma {:induction false} PlayGrows(y: System, es: seq<Event>)
    requires ValidSystem(y)
    ensures Grows(y.db.catalog, Play(y, es).db.catalog)
    decreases |es|
  {
    if es != [] {
      var z := Next(y, es[0]);
      NextGrows(y, es[0]);
      NextKeepsValid(y, es[0]);
      PlayGrows(z, es[1..]);
      GrowsOn(y.db.catalog, z.db.catalog, Play(z, es[1..]).db.catalog);
    }
  }

  // ---------- A store that stays in step ----------

  lemma InStepStays(c: Catalog, d: Catalog, f: PriceFile, shop: Id)
    requires InStep(c, f, shop) && Grows(c, d) && PriceList(d, shop) == PriceList(c, shop)
    ensures InStep(d, f, shop)
  {
    forall e | e in OrEmpty(f.categories) ensures e.id.Given? && e.id.value in d.categories.rows && e.name != Missing {
      assert e.id.value in c.categories.rows.Keys;
      assert e.id.value in d.categories.rows.Keys;
    }
    forall g | g in OrEmpty(f.goods) ensures Supported(d, g) {
      assert Supported(c, g);
      assert g.category.value in c.categories.rows.Keys;
      assert g.category.value in d.categories.rows.Keys;
      var p := Any(ProductsNamed(c.products.rows, g.name.value));
      assert p in ProductsNamed(d.products.rows, g.name.value);
    }
  }

  /** What one success of an import without null ids leaves. */
  lemma OnceInStep(db: Db, f: PriceFile, task: Id)
    requires ValidCatalog(db.catalog) && NoNullIds(f) && Run(Begin(db), ImportProgram(f, task)).error.None?
    ensures var t := Run(Begin(db), ImportProgram(f, task));
      ValidCatalog(t.db.catalog) && InStep(t.db.catalog, f, t.regs.shop) && t.db.tasks == Processed(db.tasks, task, CountsOf(f))
  {
    var t := Run(Begin(db), ImportProgram(f, task));
    ImportSettlesStore(db, f, task);
    assert forall e :: e in OrEmpty(f.categories) ==> SettledEntry(t.db.catalog, e) && !NullId(e);
    TaskWritten(db, f, task);
  }

  /** A task that is marked, with its file's counts, is not changed by marking it again. */
  lemma MarkedTwice(tasks: Table<Task>, task: Id, f: PriceFile)
    requires task in tasks.rows ==> tasks.rows[task] == Task(f, true, CountsOf(f))
    ensures Processed(tasks, task, CountsOf(f)) == tasks
  {
    if task in tasks.rows { assert tasks.rows[task := tasks.rows[task]] == tasks.rows; }
  }

  /** The second import, in any later state whose list of the shop is the same. */
  lemma AgainIn(d: Db, z: Db, f: PriceFile, task: Id, shop: Id)
    requires InStep(d.catalog, f, shop) && Grows(d.catalog, z.catalog) && ValidCatalog(z.catalog)
    requires PriceList(z.catalog, shop) == PriceList(d.catalog, shop)
    ensures var t := Run(Begin(z), ImportProgram(f, task));
      t.error.None? && t.db == z.(tasks := Processed(z.tasks, task, CountsOf(f)))
  {
    InStepStays(d.catalog, z.catalog, f, shop);
    ImportInStep(z, f, shop, task);
  }

  /** A run keeps the store well-formed, and a processed task as it is. */
  lemma PlayKeepsTask(y: System, es: seq<Event>, task: Id)
    requires ValidSystem(y) && task in y.db.tasks.rows && y.db.tasks.rows[task].processed
    ensures ValidCatalog(Play(y, es).db.catalog)
    ensures task in Play(y, es).db.tasks.rows && Play(y, es).db.tasks.rows[task] == y.db.tasks.rows[task]
  {
    TaskProtocol(y, es, task);
    TaskProtocol(y, [], task);
    PlayKeepsValid(y, es);
    var a, b := y.db.tasks.rows[task], Play(y, es).db.tasks.rows[task];
    assert a.file == b.file && a.processed == b.processed && a.counts == b.counts;
  }

  /**
   Idempotence over runs: after one success, and then any run of the system that ends with the list of
   the shop as it was, the same task's import succeeds again and leaves every table identical.
   */
  lemma ImportAgainLater(db: Db, f: PriceFile, task: Id, y: System, es: seq<Event>)
    requires ValidCatalog(db.catalog) && NoNullIds(f) && Run(Begin(db), ImportProgram(f, task)).error.None?
    requires task in db.tasks.rows && db.tasks.rows[task].file == f
    requires ValidSystem(y) && y.db == Run(Begin(db), ImportProgram(f, task)).db
    requires var shop := Run(Begin(db), ImportProgram(f, task)).regs.shop;
      PriceList(Play(y, es).db.catalog, shop) == PriceList(y.db.catalog, shop)
    ensures var z := Play(y, es).db; var again := Run(Begin(z), ImportProgram(f, task)); again.error.None? && again.db == z
  {
    var shop := Run(Begin(db), ImportProgram(f, task)).regs.shop;
    OnceInStep(db, f, task);
    PlayGrows(y, es);
    PlayKeepsTask(y, es, task);
    AgainIn(y.db, Play(y, es).db, f, task, shop);
    MarkedTwice(Play(y, es).db.tasks, task, f);
  }

  // ---------- Triggered twice ----------

  /**
   A task that is in the queue twice is imported twice, whatever happens between the worker's two turns,
   the tasks in between included.  If the first import succeeds, no category id is null and the shop's
   list is what it was when the second turn comes, the second one writes nothing.
   */
  lemma TriggeredTwice(y: System, task: Id, f: PriceFile, between: seq<Id>, es: seq<Event>)
    requires ValidSystem(y) && y.worker.rest == [] && [task] + between + [task] <= y.queue
    requires task in y.db.tasks.rows && f == y.db.tasks.rows[task].file
    requires NoNullIds(f) && Run(Begin(y.db), ImportProgram(f, task)).error.None?
    requires var once := Play(y, WorkOn(f, task)); Taken(once, es) == between && Play(once, es).worker.rest == []
    requires var shop, once := Run(Begin(y.db), ImportProgram(f, task)).regs.shop, Play(y, WorkOn(f, task));
      PriceList(Play(once, es).db.catalog, shop) == PriceList(once.db.catalog, shop)
    ensures var once := Play(y, WorkOn(f, task)); var z := Play(once, es); var twice := Play(z, WorkOn(f, task));
      && once.db.tasks.rows == y.db.tasks.rows[task := Task(f, true, CountsOf(f))]
      && z.queue != [] && z.queue[0] == task && twice.queue == z.queue[1..] && twice.db == z.db
  {
    var once := Play(y, WorkOn(f, task));
    WorkerAlone(y, task);
    PlayKeepsValid(y, WorkOn(f, task));
    OnceInStep(y.db, f, task);
    ImportAgainLater(y.db, f, task, once, es);
    PlayKeepsTask(once, es, task);
    NextInLine(y, task, between, once, es);
    WorkerAlone(Play(once, es), task);
  }

  /** After the tasks in between it is the second one's turn. */
  lemma NextInLine(y: System, task: Id, between: seq<Id>, once: System, es: seq<Event>)
    requires [task] + between + [task] <= y.queue && once.queue == y.queue[1..] && Taken(once, es) == between
    ensures Play(once, es).queue != [] && Play(once, es).queue[0] == task
  {
    FirstInFirstOut(once, es);
    var q, rest := once.queue + AcceptedTriggers(once, es), Play(once, es).queue;
    assert y.queue[|between| + 1] == ([task] + between + [task])[|between| + 1] == task;
    assert q == between + rest && q[|between|] == task;
  }

  // ---------- A worker that dies ----------

  /**
   The worker dies during a task that it would have finished: the task can be triggered again, and once
   it is its turn with the tables as they were left, every list is what an undisturbed run had made of it.
   */
  lemma DeadWorkerRetried(y: System, task: Id, f: PriceFile, k: nat, z: System)
    requires ValidSystem(y) && y.worker.rest == [] && y.queue != [] && y.queue[0] == task
    requires task != 0 && task in y.db.tasks.rows && !y.db.tasks.rows[task].processed && f == y.db.tasks.rows[task].file
    requires k < |ImportProgram(f, task)| && Run(Begin(y.db), ImportProgram(f, task)).error.None?
    requires z.db == Play(y, [WorkerTakes] + Repeat(WorkerStep, k)).db
    ensures TriggerStatus(z.db, Some(task)) == 200
    ensures z.worker.rest == [] && z.queue != [] && z.queue[0] == task ==>
      var direct, retry := Play(y, WorkOn(f, task)).db, Play(z, WorkOn(f, task)).db;
      && retry.tasks == direct.tasks && retry.sales == direct.sales
      && forall x :: PriceList(retry.catalog, x) == PriceList(direct.catalog, x)
  {
    WorkerPart(y, task, k);
    RetryRecovers(y.db, f, task, k);
    WorkerAlone(y, task);
    if z.worker.rest == [] && z.queue != [] && z.queue[0] == task { WorkerAlone(z, task); }
  }
}
