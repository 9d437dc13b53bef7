/**
 Carts during an import.  As long as no other importer moves, a `load_data` or a `do_import` keeps every
 order line within stock, whatever is asked between its statements, if and only if its file lowers no
 stock; and that can be read off the file and the store before the import starts.
 */
module StockOfRuns {
  import opened Prelude
  import opened Tables
  import opened Programs
  import opened LoadFailure
  import opened System
  import opened Safety
  import opened Runs
  import opened Uninterrupted
  import opened Stock
  import opened StockOfFiles

  // ---------- One importer among requests ----------

  /** The job that an event advances. */
  ghost predicate HasJob(y: System, step: Event) {
    step.WorkerStep? || (step.LoadStep? && step.job < |y.loads|)
  }

  ghost function JobOf(y: System, step: Event): Job
    requires HasJob(y, step)
  {
    if step.WorkerStep? then y.worker else y.loads[step.job]
  }

  /** Anything but a step of another importer: requests, uploads, triggers, new commands, deaths. */
  predicate OthersRest(step: Event, e: Event) {
    && (e.LoadStep? || e.WorkerStep? ==> e == step)
    && (e.WorkerTakes? ==> !step.WorkerStep?)
  }

  /** Every line stays within stock in every run of such events. */
  ghost predicate CoversAmongEvents(y: System, step: Event) {
    forall es: seq<Event> | (forall e :: e in es ==> OthersRest(step, e)) :: StockCovers(Play(y, es).db)
  }

  /** Every line stays within stock in every run of the importer's steps and requests alone. */
  ghost predicate CoversAmongRequests(y: System, step: Event) {
    forall es: seq<Event> | (forall e :: e in es ==> e.Ask? || e == step) :: StockCovers(Play(y, es).db)
  }

  ghost predicate JobSteady(y: System, step: Event)
    requires HasJob(y, step)
  {
    Steady(Session(y.db, JobOf(y, step).regs, None), JobOf(y, step).rest)
  }

  lemma OwnEvent(y: System, step: Event)
    requires HasJob(y, step)
    ensures var z, t := Next(y, step), StepJob(y.db, JobOf(y, step)); HasJob(z, step) && z.db == t.db && JobOf(z, step) == t.job
  {}

  lemma OtherEvent(y: System, step: Event, e: Event)
    requires HasJob(y, step) && OthersRest(step, e) && e != step
    ensures var z := Next(y, e);
      HasJob(z, step) && z.db.catalog == y.db.catalog && (JobOf(z, step) == JobOf(y, step) || JobOf(z, step).rest == [])
  {}

  // ---------- A file that lowers no stock ----------

  /** Orders and tasks do not matter to an importer's writes. */
  lemma {:induction false} SteadyIgnoresSales(s: Session, t: Session, p: seq<Stmt>)
    requires s.db.catalog == t.db.catalog && s.regs == t.regs && s.error == t.error
    ensures Steady(s, p) <==> Steady(t, p)
    decreases |p|
  {
    if p != [] && s.error.None? {
      ExecIgnoresSales(s, t, p[0]);
      SteadyIgnoresSales(Exec(s, p[0]), Exec(t, p[0]), p[1..]);
    }
  }

  lemma ExecIgnoresSales(s: Session, t: Session, st: Stmt)
    requires s.db.catalog == t.db.catalog && s.regs == t.regs && s.error == t.error
    ensures var u, v := Exec(s, st), Exec(t, st); u.db.catalog == v.db.catalog && u.regs == v.regs && u.error == v.error
  {}

  lemma OwnStaysSteady(y: System, step: Event)
    requires HasJob(y, step) && JobSteady(y, step)
    ensures var z := Next(y, step); LowersNoStock(y.db.catalog, z.db.catalog) && HasJob(z, step) && JobSteady(z, step)
  {
    OwnEvent(y, step);
  }

  lemma OtherStaysSteady(y: System, step: Event, e: Event)
    requires HasJob(y, step) && JobSteady(y, step) && OthersRest(step, e) && e != step
    ensures var z := Next(y, e); LowersNoStock(y.db.catalog, z.db.catalog) && HasJob(z, step) && JobSteady(z, step)
  {
    OtherEvent(y, step, e);
    var z := Next(y, e);
    if JobOf(z, step).rest != [] {
      SteadyIgnoresSales(Session(y.db, JobOf(y, step).regs, None), Session(z.db, JobOf(z, step).regs, None), JobOf(y, step).rest);
    }
  }

  lemma {:induction false} SteadyCovers(y: System, step: Event, es: seq<Event>)
    requires ValidSystem(y) && StockCovers(y.db) && HasJob(y, step) && JobSteady(y, step)
    requires forall e :: e in es ==> OthersRest(step, e)
    ensures StockCovers(Play(y, es).db)
    decreases |es|
  {
    if es != [] {
      var e := es[0];
      assert e in es;
      if e == step { OwnStaysSteady(y, step); } else { OtherStaysSteady(y, step, e); }
      NextKeepsValid(y, e);
      NextKeepsStockCover(y, e, Next(y, e).db);
      SteadyCovers(Next(y, e), step, es[1..]);
    }
  }

  // ---------- A file that lowers one ----------

  /** The next step lowers the stock of a row that it keeps. */
  ghost predicate Lowers(y: System, step: Event) {
    !LowersNoStock(y.db.catalog, Next(y, step).db.catalog)
  }

  /** The first statement that lowers a stock, counted from 0. */
  lemma {:induction false} FirstLowering(s: Session, p: seq<Stmt>) returns (n: nat)
    requires s.error.None? && !Steady(s, p)
    ensures n < |p| && Run(s, p[..n]).error.None?
    ensures !LowersNoStock(Run(s, p[..n]).db.catalog, Exec(Run(s, p[..n]), p[n]).db.catalog)
    decreases |p|
  {
    if LowersNoStock(s.db.catalog, Exec(s, p[0]).db.catalog) {
      var m := FirstLowering(Exec(s, p[0]), p[1..]);
      n := m + 1;
      assert p[..n] == [p[0]] + p[1..][..m];
      RunStep(s, p[0], p[1..][..m]);
    } else {
      n := 0;
    }
  }

  /** Where a job is after n of its steps. */
  lemma AfterSteps(y: System, step: Event, n: nat)
    requires HasJob(y, step) && n <= |JobOf(y, step).rest|
    requires Run(Session(y.db, JobOf(y, step).regs, None), JobOf(y, step).rest[..n]).error.None?
    ensures var job, z := JobOf(y, step), Play(y, Repeat(step, n)); var s := Run(Session(y.db, job.regs, None), job.rest[..n]);
      HasJob(z, step) && Session(z.db, JobOf(z, step).regs, None) == s && JobOf(z, step).rest == job.rest[n..]
  {
    StepsRun(y.db, JobOf(y, step), n);
    if step.WorkerStep? { WorkerStepsPlay(y, n); } else { LoadStepsPlay(y, step.job, n); }
  }

  lemma UnsteadyLowers(y: System, step: Event) returns (n: nat)
    requires HasJob(y, step) && !JobSteady(y, step)
    ensures Lowers(Play(y, Repeat(step, n)), step)
  {
    n := FirstLowering(Session(y.db, JobOf(y, step).regs, None), JobOf(y, step).rest);
    AfterSteps(y, step, n);
    OwnEvent(Play(y, Repeat(step, n)), step);
  }

  lemma {:induction false} RepeatsStep(step: Event, n: nat)
    ensures forall e :: e in Repeat(step, n) ==> e == step
    decreases n
  {
    if n > 0 { RepeatsStep(step, n - 1); }
  }

  /** A customer asks for all there is just before a stock is lowered. */
  lemma LoweringAsked(z: System, step: Event) returns (ask: Event)
    requires ValidSystem(z) && !step.Ask? && Lowers(z, step)
    ensures ask.Ask? && !StockCovers(Play(z, [ask, step]).db)
  {
    var c, d := z.db.catalog.infos.rows, Next(z, step).db.catalog.infos.rows;
    var i :| i in c && i in d && d[i].quantity < c[i].quantity;
    LoweringBreaks(z, step, i);
    ask := AllOf(z, i);
    TwoEvents(z, ask, step);
  }

  lemma AskedAfter(y: System, step: Event, n: nat) returns (es: seq<Event>)
    requires ValidSystem(Play(y, Repeat(step, n))) && !step.Ask? && Lowers(Play(y, Repeat(step, n)), step)
    ensures (forall e :: e in es ==> e.Ask? || e == step) && !StockCovers(Play(y, es).db)
  {
    var steps := Repeat(step, n);
    var ask := LoweringAsked(Play(y, steps), step);
    es := steps + [ask, step];
    PlayAppend(y, steps, [ask, step]);
    RepeatsStep(step, n);
  }

  lemma UnsteadyBreaks(y: System, step: Event) returns (es: seq<Event>)
    requires ValidSystem(y) && HasJob(y, step) && !JobSteady(y, step)
    ensures (forall e :: e in es ==> e.Ask? || e == step) && !StockCovers(Play(y, es).db)
  {
    var n := UnsteadyLowers(y, step);
    PlayKeepsValid(y, Repeat(step, n));
    es := AskedAfter(y, step, n);
  }

  // ---------- Main results ----------

  lemma SteadyIsSafe(y: System, step: Event)
    requires ValidSystem(y) && StockCovers(y.db) && HasJob(y, step) && JobSteady(y, step)
    ensures CoversAmongEvents(y, step)
  {
    forall es: seq<Event> | (forall e :: e in es ==> OthersRest(step, e)) ensures StockCovers(Play(y, es).db) {
      SteadyCovers(y, step, es);
    }
  }

  lemma RequestsAreEvents(y: System, step: Event)
    requires HasJob(y, step) && CoversAmongEvents(y, step)
    ensures CoversAmongRequests(y, step)
  {
    forall es: seq<Event> | (forall e :: e in es ==> e.Ask? || e == step) ensures StockCovers(Play(y, es).db) {
      assert forall e :: e in es ==> OthersRest(step, e);
    }
  }

  lemma UnsteadyIsNot(y: System, step: Event)
    requires ValidSystem(y) && HasJob(y, step) && !JobSteady(y, step)
    ensures !CoversAmongRequests(y, step)
  {
    var es := UnsteadyBreaks(y, step);
    assert !StockCovers(Play(y, es).db);
  }

  lemma SteadyExactly(y: System, step: Event)
    requires ValidSystem(y) && StockCovers(y.db) && HasJob(y, step)
    ensures CoversAmongEvents(y, step) <==> JobSteady(y, step)
    ensures CoversAmongRequests(y, step) <==> JobSteady(y, step)
  {
    if JobSteady(y, step) { SteadyIsSafe(y, step); } else { UnsteadyIsNot(y, step); }
    if CoversAmongEvents(y, step) { RequestsAreEvents(y, step); }
  }

  /**
   From the start of `load_data` on, with nothing else writing price lists, no line ever exceeds its stock
   if and only if the goods that are stored mention no id again with less of it; requests alone are
   enough to break it otherwise.
   */
  lemma LoadCoversExactly(y: System, f: PriceFile, owner: Option<Id>)
    requires ValidSystem(y) && StockCovers(y.db)
    ensures var z, step := Next(y, StartLoad(f, owner)), LoadStep(|y.loads|);
      && (CoversAmongEvents(z, step) <==> HeadFails(y.db.catalog, f, owner) || NonDecreasing(Listed(y.db.catalog, f)))
      && (CoversAmongRequests(z, step) <==> HeadFails(y.db.catalog, f, owner) || NonDecreasing(Listed(y.db.catalog, f)))
  {
    NextKeepsValid(y, StartLoad(f, owner));
    SteadyExactly(Next(y, StartLoad(f, owner)), LoadStep(|y.loads|));
    LoadSteadyExactly(y.db, f, owner);
  }

  lemma TakenSteadyExactly(y: System, task: Id)
    requires ValidCatalog(y.db.catalog) && y.worker.rest == [] && y.queue != [] && y.queue[0] == task && task in y.db.tasks.rows
    ensures JobSteady(Next(y, WorkerTakes), WorkerStep) <==> ImportRestocks(y.db.catalog, y.db.tasks.rows[task].file)
  {
    Takes(y, task);
    ImportSteadyExactly(y.db, y.db.tasks.rows[task].file, task);
  }

  /** The same for `do_import`, from the moment the worker takes a task. */
  lemma ImportCoversExactly(y: System, task: Id)
    requires ValidSystem(y) && StockCovers(y.db)
    requires y.worker.rest == [] && y.queue != [] && y.queue[0] == task && task in y.db.tasks.rows
    ensures var z, f := Next(y, WorkerTakes), y.db.tasks.rows[task].file;
      && (CoversAmongEvents(z, WorkerStep) <==> ImportRestocks(y.db.catalog, f))
      && (CoversAmongRequests(z, WorkerStep) <==> ImportRestocks(y.db.catalog, f))
  {
    NextKeepsValid(y, WorkerTakes);
    Takes(y, task);
    TakenSteadyExactly(y, task);
    SteadyExactly(Next(y, WorkerTakes), WorkerStep);
  }
}
