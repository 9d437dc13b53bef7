/**
 Jobs of the interleaved system that nothing interrupts: their events do what the program of the job
 does in one go, so that the results about whole imports hold of the running system.
 */
module Uninterrupted {
  import opened Prelude
  import opened Programs
  import opened System

  function Repeat(e: Event, n: nat): seq<Event> {
    if n == 0 then [] else [e] + Repeat(e, n - 1)
  }

  ghost function StepJobs(db: Db, job: Job, n: nat): Stepped
    decreases n
  {
    if n == 0 then Stepped(db, job)
    else
      var one := StepJob(db, job);
      StepJobs(one.db, one.job, n - 1)
  }

  lemma {:induction false} IdleSteps(db: Db, job: Job, n: nat)
    requires job.rest == []
    ensures StepJobs(db, job, n) == Stepped(db, job)
  {
    if n > 0 { IdleSteps(db, job, n - 1); }
  }

  /** Statement by statement or in one go, and wherever it is cut: the same database. */
  lemma {:induction false} StepsRun(db: Db, job: Job, n: nat)
    requires n <= |job.rest|
    ensures var t, s := StepJobs(db, job, n), Run(Session(db, job.regs, None), job.rest[..n]);
      && t.db == s.db
      && (s.error.None? ==> t.job.regs == s.regs && t.job.rest == job.rest[n..])
      && (n == |job.rest| ==> t.job.rest == [])
    decreases n
  {
    if n > 0 {
      var s, p := Session(db, job.regs, None), job.rest;
      var u := Exec(s, p[0]);
      assert p[..n] == [p[0]] + p[1..][..n-1];
      RunStep(s, p[0], p[1..][..n-1]);
      if u.error.Some? {
        IdleSteps(u.db, job.(rest := []), n - 1);
      } else {
        StepsRun(u.db, Job(job.task, u.regs, p[1..]), n - 1);
      }
    }
  }

  lemma {:induction false} LoadStepsPlay(y: System, k: nat, n: nat)
    requires k < |y.loads|
    ensures var z, t := Play(y, Repeat(LoadStep(k), n)), StepJobs(y.db, y.loads[k], n);
      |z.loads| == |y.loads| && z.db == t.db && z.loads[k] == t.job && z.queue == y.queue && z.worker == y.worker
    decreases n
  {
    if n > 0 {
      assert Repeat(LoadStep(k), n)[1..] == Repeat(LoadStep(k), n - 1);
      LoadStepsPlay(Next(y, LoadStep(k)), k, n - 1);
    }
  }

  lemma {:induction false} WorkerStepsPlay(y: System, n: nat)
    ensures var z, t := Play(y, Repeat(WorkerStep, n)), StepJobs(y.db, y.worker, n);
      z.db == t.db && z.worker == t.job && z.queue == y.queue && z.loads == y.loads
    decreases n
  {
    if n > 0 {
      assert Repeat(WorkerStep, n)[1..] == Repeat(WorkerStep, n - 1);
      WorkerStepsPlay(Next(y, WorkerStep), n - 1);
    }
  }

  lemma {:induction false} PlayAppend(y: System, es: seq<Event>, fs: seq<Event>)
    ensures Play(y, es + fs) == Play(Play(y, es), fs)
    decreases |es|
  {
    if es == [] {
      assert es + fs == fs;
    } else {
      assert (es + fs)[1..] == es[1..] + fs;
      PlayAppend(Next(y, es[0]), es[1..], fs);
    }
  }

  // ---------- load_data ----------

  /** A command that starts now and dies after n statements leaves what that prefix of its program leaves. */
  lemma LoadAlone(y: System, f: PriceFile, owner: Option<Id>, n: nat)
    requires n <= |LoadProgram(f, owner)|
    ensures var k := |y.loads|;
      Play(y, [StartLoad(f, owner)] + (Repeat(LoadStep(k), n) + [LoadDies(k)])).db ==
        Run(Begin(y.db), LoadProgram(f, owner)[..n]).db
  {
    var k, start := |y.loads|, StartLoad(f, owner);
    var es := Repeat(LoadStep(k), n);
    assert ([start] + (es + [LoadDies(k)]))[1..] == es + [LoadDies(k)];
    var z := Next(y, start);
    PlayAppend(z, es, [LoadDies(k)]);
    LoadStepsPlay(z, k, n);
    StepsRun(z.db, z.loads[k], n);
  }

  // ---------- do_import ----------

  /** The worker's events for the task at the head of its queue. */
  function WorkOn(f: PriceFile, task: Id): seq<Event> {
    [WorkerTakes] + Repeat(WorkerStep, |ImportProgram(f, task)|)
  }

  lemma Takes(y: System, task: Id)
    requires y.worker.rest == [] && y.queue != [] && y.queue[0] == task && task in y.db.tasks.rows
    ensures var z := Next(y, WorkerTakes);
      && z.db == y.db && z.queue == y.queue[1..]
      && z.worker == Job(task, START, ImportProgram(y.db.tasks.rows[task].file, task))
  {}

  lemma PlayFirst(y: System, e: Event, es: seq<Event>)
    ensures Play(y, [e] + es) == Play(Next(y, e), es)
  {
    assert ([e] + es)[1..] == es;
  }

  lemma WorkerAlone(y: System, task: Id)
    requires y.worker.rest == [] && y.queue != [] && y.queue[0] == task && task in y.db.tasks.rows
    ensures var f := y.db.tasks.rows[task].file; var z := Play(y, WorkOn(f, task));
      && z.db == Run(Begin(y.db), ImportProgram(f, task)).db
      && z.queue == y.queue[1..] && z.worker.rest == []
  {
    var p, z := ImportProgram(y.db.tasks.rows[task].file, task), Next(y, WorkerTakes);
    Takes(y, task);
    PlayFirst(y, WorkerTakes, Repeat(WorkerStep, |p|));
    WorkerStepsPlay(z, |p|);
    StepsRun(z.db, z.worker, |p|);
    assert p[..|p|] == p;
  }

  /** The worker takes the task and gets k statements far. */
  lemma WorkerPart(y: System, task: Id, k: nat)
    requires y.worker.rest == [] && y.queue != [] && y.queue[0] == task && task in y.db.tasks.rows
    requires k <= |ImportProgram(y.db.tasks.rows[task].file, task)|
    ensures Play(y, [WorkerTakes] + Repeat(WorkerStep, k)).db ==
      Run(Begin(y.db), ImportProgram(y.db.tasks.rows[task].file, task)[..k]).db
  {
    Takes(y, task);
    PlayFirst(y, WorkerTakes, Repeat(WorkerStep, k));
    WorkerStepsPlay(Next(y, WorkerTakes), k);
    StepsRun(y.db, Next(y, WorkerTakes).worker, k);
  }
}
