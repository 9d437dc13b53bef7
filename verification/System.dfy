/**
 The running system: requests of any users, any number of `load_data` commands and the single import
 worker, interleaved statement by statement.  A command or the worker may die after any statement.
 Two fields only record history: the largest stock each product row ever had, and every confirmation
 that was answered with success.
 */
module System {
  import opened Prelude
  import opened Tables
  import opened Programs
  import opened Cart
  import opened ImportAgain
  import opened ImportCounts

  datatype Job = Job(task: Id, regs: Regs, rest: seq<Stmt>)

  datatype System = System(
    db: Db,
    loads: seq<Job>,
    queue: seq<Id>,
    worker: Job,
    peak: map<Id, int>,
    confirmations: seq<(Id, Id)>)

  const IDLE := Job(0, START, [])

  const EMPTY_SYSTEM := System(EMPTY_DB, [], [], IDLE, map[], [])

  datatype Event =
    | Ask(user: Id, request: Request)
    | StartLoad(file: PriceFile, owner: Option<Id>)
    | LoadStep(job: nat)
    | LoadDies(job: nat)
    | Upload(upload: Option<PriceFile>)
    | Trigger(triggered: Option<int>)
    | WorkerTakes
    | WorkerStep
    | WorkerDies

  // ---------- Transitions ----------

  datatype Stepped = Stepped(db: Db, job: Job)

  /** One statement of a job; an exception ends the job and undoes nothing. */
  ghost function StepJob(db: Db, job: Job): Stepped {
    if job.rest == [] then Stepped(db, job)
    else
      var s := Exec(Session(db, job.regs, None), job.rest[0]);
      Stepped(s.db, if s.error.Some? then job.(rest := []) else Job(job.task, s.regs, job.rest[1..]))
  }

  function Max(a: int, b: int): int {
    if a < b then b else a
  }

  ghost function Raised(peak: map<Id, int>, infos: map<Id, Info>): map<Id, int> {
    map i | i in peak.Keys + infos.Keys ::
      if i !in infos then peak[i]
      else if i !in peak then infos[i].quantity
      else Max(peak[i], infos[i].quantity)
  }

  ghost function WithDb(y: System, db: Db): System {
    y.(db := db, peak := Raised(y.peak, db.catalog.infos.rows))
  }

  /** trigger_import: a task may be queued again and again until some run has marked it processed. */
  function TriggerStatus(db: Db, task: Option<int>): int {
    if Unset(task) then 400
    else if task.value !in db.tasks.rows then 404
    else if db.tasks.rows[task.value].processed then 400
    else 200
  }

  ghost function Answer(y: System, e: Event): Response {
    match e
    case Ask(user, r) => Handle(y.db.catalog.infos.rows, y.db.sales, user, r).response
    case Trigger(task) => Status(TriggerStatus(y.db, task))
    case _ => Status(200)
  }

  ghost function AfterRequest(y: System, user: Id, r: Request): System {
    var h := Handle(y.db.catalog.infos.rows, y.db.sales, user, r);
    y.(db := y.db.(sales := h.sales),
       confirmations :=
         if r.ConfirmOrder? && h.response.status == 200 then y.confirmations + [(user, r.basket.value)] else y.confirmations)
  }

  ghost function Next(y: System, e: Event): System {
    match e
    case Ask(user, r) => AfterRequest(y, user, r)
    case StartLoad(file, owner) => y.(loads := y.loads + [Job(0, START, LoadProgram(file, owner))])
    case LoadStep(k) =>
      if k >= |y.loads| then y
      else
        var stepped := StepJob(y.db, y.loads[k]);
        WithDb(y.(loads := y.loads[k := stepped.job]), stepped.db)
    case LoadDies(k) => if k >= |y.loads| then y else y.(loads := y.loads[k := y.loads[k].(rest := [])])
    case Upload(file) =>
      if file.None? then y else y.(db := y.db.(tasks := y.db.tasks.Insert(Task(file.value, false, NO_STATS))))
    case Trigger(task) => if TriggerStatus(y.db, task) == 200 then y.(queue := y.queue + [task.value]) else y
    case WorkerTakes =>
      if y.queue == [] || y.worker.rest != [] then y
      else
        var t := y.queue[0];
        y.(queue := y.queue[1..],
           worker := if t in y.db.tasks.rows then Job(t, START, ImportProgram(y.db.tasks.rows[t].file, t)) else IDLE)
    case WorkerStep =>
      var stepped := StepJob(y.db, y.worker);
      WithDb(y.(worker := stepped.job), stepped.db)
    case WorkerDies => y.(worker := IDLE)
  }

  ghost function Play(y: System, es: seq<Event>): System
    decreases |es|
  {
    if es == [] then y else Play(Next(y, es[0]), es[1..])
  }

  // ---------- The invariant ----------

  /** No lookup is ambiguous, no reference dangles, no amount is negative: catalogue, orders and lines. */
  ghost predicate ValidDb(db: Db) {
    ValidCatalog(db.catalog) && ValidSales(db.sales) && LinesListed(db.catalog, db.sales) && db.tasks.Fresh()
  }

  ghost predicate LoadJob(j: Job) {
    forall st :: st in j.rest ==> LoadStmt(st)
  }

  /** A task's program marks that task only, at its very end. */
  ghost predicate TaskProgram(p: seq<Stmt>, task: Id) {
    && (forall st :: st in p ==> ImportStmt(st))
    && (forall k :: 0 <= k < |p| && p[k].Finish? ==> p[k].task == task && k == |p| - 1)
  }

  /** What the worker has counted and has still to count is what the file holds, unless an error lies ahead. */
  ghost predicate WorkerJob(db: Db, j: Job) {
    && TaskProgram(j.rest, j.task)
    && (j.rest != [] && NoRaise(j.rest) ==>
          j.task in db.tasks.rows &&
          forall k :: Counter(j.regs.stats, k) + Count(j.rest, k) == Counter(CountsOf(db.tasks.rows[j.task].file), k))
  }

  ghost predicate TasksCounted(db: Db) {
    forall t :: t in db.tasks.rows ==>
      var row := db.tasks.rows[t]; row.counts == if row.processed then CountsOf(row.file) else NO_STATS
  }

  ghost predicate PeaksCover(y: System) {
    && (forall i :: i in y.db.catalog.infos.rows ==> i in y.peak && y.db.catalog.infos.rows[i].quantity <= y.peak[i])
    && (forall l :: l in y.db.sales.lines.rows ==>
          var line := y.db.sales.lines.rows[l]; line.info in y.peak && line.quantity <= y.peak[line.info])
  }

  ghost predicate IsOrderOf(s: Sales, user: Id, order: Id) {
    order in s.orders.rows && s.orders.rows[order].state == Confirmed && s.orders.rows[order].user == user
  }

  ghost predicate ConfirmationsMatch(y: System) {
    && (forall i, j :: 0 <= i < j < |y.confirmations| ==> y.confirmations[i].1 != y.confirmations[j].1)
    && (forall c :: c in y.confirmations ==> IsOrderOf(y.db.sales, c.0, c.1))
    && (forall o :: o in y.db.sales.orders.rows && y.db.sales.orders.rows[o].state == Confirmed ==>
          (y.db.sales.orders.rows[o].user, o) in y.confirmations)
  }

  ghost predicate ValidSystem(y: System) {
    && ValidDb(y.db)
    && (forall j :: j in y.loads ==> LoadJob(j))
    && WorkerJob(y.db, y.worker)
    && TasksCounted(y.db)
    && (forall t :: t in y.queue ==> t in y.db.tasks.rows)
    && PeaksCover(y)
    && ConfirmationsMatch(y)
  }
}
