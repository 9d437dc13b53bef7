/**
 A cart in the running system: what a simple cart of one's own would hold if the importers took out of it
 the product rows that they delete, and nobody else's requests existed.
 */
module CartRuns {
  import opened Prelude
  import opened Tables
  import opened Programs
  import opened CartRefinement
  import opened System
  import opened Safety
  import opened Isolation

  /** The product rows that an event deletes. */
  ghost function Gone(y: System, e: Event): set<Id> {
    y.db.catalog.infos.rows.Keys - Next(y, e).db.catalog.infos.rows.Keys
  }

  ghost function SimpleNext(y: System, user: Id, m: Content, e: Event): Content {
    match e
    case Ask(who, r) => if who == user then AbsHandle(y.db.catalog.infos.rows, m, Abstract(y.db.sales, user, r)).content else m
    case _ => if m.None? then None else Some(m.value - Gone(y, e))
  }

  ghost function SimplePlay(y: System, user: Id, m: Content, es: seq<Event>): Content
    decreases |es|
  {
    if es == [] then m else SimplePlay(Next(y, es[0]), user, SimpleNext(y, user, m, es[0]), es[1..])
  }

  /** A cart holds only rows that exist. */
  lemma HeldRowsExist(db: Db, user: Id)
    requires LinesListed(db.catalog, db.sales)
    ensures var m := ContentOf(db.sales, user); m.Some? ==> m.value.Keys <= db.catalog.infos.rows.Keys
  {}

  lemma JobKeepsContent(db: Db, job: Job, user: Id)
    requires ValidDb(db) && forall st :: st in job.rest ==> JobStmt(st)
    ensures var t, m := StepJob(db, job).db, ContentOf(db.sales, user);
      ContentOf(t.sales, user) == if m.None? then None else Some(m.value - (db.catalog.infos.rows.Keys - t.catalog.infos.rows.Keys))
  {
    var m, t := ContentOf(db.sales, user), StepJob(db, job).db;
    HeldRowsExist(db, user);
    if job.rest == [] {
      if m.Some? { NothingRemoved(m.value, db.catalog.infos.rows.Keys - t.catalog.infos.rows.Keys); }
    } else {
      var s, st := Session(db, job.regs, None), job.rest[0];
      assert st in job.rest;
      StmtKeepsRows(s, st);
      var gone := db.catalog.infos.rows.Keys - t.catalog.infos.rows.Keys;
      if st.ClearOffers? {
        var doomed := InfosOf(db.catalog.infos.rows, job.regs.shop);
        DroppedContent(db.sales, doomed, user);
        assert forall i :: i in gone <==> i in doomed;
        SameSet(gone, doomed);
      } else if m.Some? {
        NothingRemoved(m.value, gone);
      }
    }
  }

  lemma NothingRemoved(m: map<Id, int>, gone: set<Id>)
    requires forall i :: i !in gone
    ensures m - gone == m
  {
    assert forall i :: i in m - gone <==> i in m;
  }

  lemma NextRefines(y: System, user: Id, e: Event)
    requires ValidSystem(y)
    ensures ContentOf(Next(y, e).db.sales, user) == SimpleNext(y, user, ContentOf(y.db.sales, user), e)
  {
    match e
    case Ask(who, r) =>
      if who == user {
        CartRefines(y.db.catalog.infos.rows, y.db.sales, user, r);
      } else {
        OthersKeepContent(y.db.catalog.infos.rows, y.db.sales, who, r, user);
      }
    case LoadStep(k) =>
      if k < |y.loads| {
        assert LoadJob(y.loads[k]);
        JobKeepsContent(y.db, y.loads[k], user);
      } else {
        StillHolds(y, user, e);
      }
    case WorkerStep => JobKeepsContent(y.db, y.worker, user);
    case _ => StillHolds(y, user, e);
  }

  lemma StillHolds(y: System, user: Id, e: Event)
    requires !e.Ask? && Next(y, e).db.catalog == y.db.catalog && Next(y, e).db.sales == y.db.sales
    ensures ContentOf(Next(y, e).db.sales, user) == SimpleNext(y, user, ContentOf(y.db.sales, user), e)
  {
    var m := ContentOf(y.db.sales, user);
    if m.Some? { NothingRemoved(m.value, Gone(y, e)); }
  }

  /** Over any run of the system, requests and importers mixed, a basket holds what the simple cart holds. */
  lemma {:induction false} SystemRefinesSimpleCart(y: System, user: Id, es: seq<Event>)
    requires ValidSystem(y)
    ensures ContentOf(Play(y, es).db.sales, user) == SimplePlay(y, user, ContentOf(y.db.sales, user), es)
    decreases |es|
  {
    if es != [] {
      NextRefines(y, user, es[0]);
      NextKeepsValid(y, es[0]);
      SystemRefinesSimpleCart(Next(y, es[0]), user, es[1..]);
    }
  }
}
