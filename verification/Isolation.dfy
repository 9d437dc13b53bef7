/**
 Users do not interfere.  Take any run and remove every cart request of every other user, keeping the
 importers: the one user gets the same answers and ends with the same cart, up to the ids of orders and
 lines, which come from counters that all users share.
 */
module Isolation {
  import opened Prelude
  import opened Tables
  import opened Orm
  import opened Programs
  import opened Cart
  import opened CartRefinement
  import opened System
  import opened Safety
  import opened Runs
  import opened Unwinding

  // ---------- Other users' requests ----------

  /** Somebody else's request leaves a user's cart as it is. */
  lemma OthersKeepContent(infos: map<Id, Info>, s: Sales, other: Id, r: Request, user: Id)
    requires ValidSales(s) && other != user && forall l :: l in s.lines.rows ==> s.lines.rows[l].info in infos
    ensures ContentOf(Handle(infos, s, other, r).sales, user) == ContentOf(s, user)
  {
    var t := Handle(infos, s, other, r).sales;
    HandleKeeps(infos, s, other, r);
    HandleOrders(infos, s, other, r);
    SameSet(Baskets(t.orders.rows, user), Baskets(s.orders.rows, user));
    if Lookup(Baskets(s.orders.rows, user)).One? {
      var b := Lookup(Baskets(s.orders.rows, user)).id;
      assert b in Baskets(s.orders.rows, user);
      RequestKeepsOtherOrders(infos, s, other, r, b);
      SameQuantities(s.lines.rows, t.lines.rows, b);
    }
  }

  /** A rejected request changes no line; at most it leaves an empty basket behind. */
  lemma RejectedChangesNothing(infos: map<Id, Info>, s: Sales, user: Id, r: Request)
    requires Handle(infos, s, user, r).response.status >= 400
    ensures var t := Handle(infos, s, user, r).sales;
      t == s || (r.AddToCart? && Baskets(s.orders.rows, user) == {} && t == NewBasket(s, user))
  {}

  // ---------- Runs of requests ----------

  /** Requests of any users, one after the other, over one catalogue. */
  ghost function Serve(infos: map<Id, Info>, s: Sales, rs: seq<(Id, Request)>): Sales
    decreases |rs|
  {
    if rs == [] then s else Serve(infos, Handle(infos, s, rs[0].0, rs[0].1).sales, rs[1..])
  }

  /** One user's requests among them, as the simple cart sees them when they arrive. */
  ghost function Seen(infos: map<Id, Info>, s: Sales, user: Id, rs: seq<(Id, Request)>): seq<AbsRequest>
    decreases |rs|
  {
    if rs == [] then []
    else
      (if rs[0].0 == user then [Abstract(s, user, rs[0].1)] else []) +
      Seen(infos, Handle(infos, s, rs[0].0, rs[0].1).sales, user, rs[1..])
  }

  ghost function ServeSimple(infos: map<Id, Info>, content: Content, rs: seq<AbsRequest>): Content
    decreases |rs|
  {
    if rs == [] then content else ServeSimple(infos, AbsHandle(infos, content, rs[0]).content, rs[1..])
  }

  /** Over any run of requests, the basket's rows are what a simple cart of one's own would hold. */
  lemma {:induction false} RunsRefineSimpleCart(infos: map<Id, Info>, s: Sales, user: Id, rs: seq<(Id, Request)>)
    requires ValidSales(s) && forall l :: l in s.lines.rows ==> s.lines.rows[l].info in infos
    ensures ContentOf(Serve(infos, s, rs), user) == ServeSimple(infos, ContentOf(s, user), Seen(infos, s, user, rs))
    decreases |rs|
  {
    if rs != [] {
      var who, r := rs[0].0, rs[0].1;
      var t := Handle(infos, s, who, r).sales;
      HandleKeeps(infos, s, who, r);
      RunsRefineSimpleCart(infos, t, user, rs[1..]);
      if who == user {
        CartRefines(infos, s, user, r);
        var one := Abstract(s, user, r);
        var rest := Seen(infos, t, user, rs[1..]);
        assert ([one] + rest)[0] == one && ([one] + rest)[1..] == rest;
      } else {
        OthersKeepContent(infos, s, who, r, user);
        assert Seen(infos, s, user, rs) == Seen(infos, t, user, rs[1..]);
      }
    }
  }

  // ---------- A user's cart under imports ----------

  lemma DroppedContent(s: Sales, doomed: set<Id>, user: Id)
    requires ValidSales(s)
    ensures ContentOf(DropLines(s, doomed), user) ==
      match ContentOf(s, user) case None => None case Some(m) => Some(m - doomed)
  {
    var lines := s.lines.rows;
    var gone := set l | l in lines && lines[l].info in doomed;
    if Lookup(Baskets(s.orders.rows, user)).One? {
      var b := Lookup(Baskets(s.orders.rows, user)).id;
      var here := set l | l in LinesOf(lines, b) && lines[l].info in doomed;
      SameQuantities(lines - gone, lines - here, b);
      DeletedQuantities(lines, here, b);
      assert Quantities(lines, b) - (set l | l in here :: lines[l].info) == Quantities(lines, b) - doomed;
    }
  }

  /** Two databases that one user and all importers cannot tell apart. */
  ghost predicate AlikeDb(a: Db, b: Db, user: Id) {
    && a.catalog == b.catalog && a.tasks == b.tasks && a.sales.contacts == b.sales.contacts
    && ContentOf(a.sales, user) == ContentOf(b.sales, user)
  }

  lemma ExecAlike(s: Session, t: Session, st: Stmt)
    requires s.db.catalog == t.db.catalog && s.db.tasks == t.db.tasks && s.regs == t.regs && s.error == t.error
    ensures var x, y := Exec(s, st), Exec(t, st);
      && x.db.catalog == y.db.catalog && x.db.tasks == y.db.tasks && x.regs == y.regs && x.error == y.error
      && if st.ClearOffers? then
           x.db.sales == DropLines(s.db.sales, InfosOf(s.db.catalog.infos.rows, s.regs.shop)) &&
           y.db.sales == DropLines(t.db.sales, InfosOf(s.db.catalog.infos.rows, s.regs.shop))
         else x.db.sales == s.db.sales && y.db.sales == t.db.sales
  {}

  lemma StepAlike(a: Db, b: Db, job: Job, user: Id)
    requires AlikeDb(a, b, user) && ValidSales(a.sales) && ValidSales(b.sales)
    ensures AlikeDb(StepJob(a, job).db, StepJob(b, job).db, user) && StepJob(a, job).job == StepJob(b, job).job
  {
    if job.rest != [] {
      var st, s, t := job.rest[0], Session(a, job.regs, None), Session(b, job.regs, None);
      ExecAlike(s, t, st);
      if st.ClearOffers? {
        var doomed := InfosOf(a.catalog.infos.rows, job.regs.shop);
        DroppedContent(a.sales, doomed, user);
        DroppedContent(b.sales, doomed, user);
      }
    }
  }

  // ---------- The same request under other ids ----------

  /** The line of the user's basket that holds a row; an unused id if there is none. */
  ghost function LineFor(s: Sales, user: Id, row: Option<Id>): int {
    match Lookup(Baskets(s.orders.rows, user))
    case One(b) =>
      if row.None? then s.lines.next
      else (match Lookup(LinesAt(s.lines.rows, b, row.value)) case One(l) => l case _ => s.lines.next)
    case _ => s.lines.next
  }

  ghost function RenamedLine(s: Sales, t: Sales, user: Id, line: Option<int>): Option<int> {
    if line.None? then None else Some(LineFor(t, user, RowOf(s, user, line)))
  }

  ghost function RenamedBasket(s: Sales, t: Sales, user: Id, id: Option<int>): Option<int> {
    if OwnBasket(s, user, id) then
      (match Lookup(Baskets(t.orders.rows, user)) case One(b) => Some(b) case _ => None)
    else None
  }

  ghost function Renamed(s: Sales, t: Sales, user: Id, r: Request): Request {
    match r
    case ChangeLine(line, quantity) => if Unset(line) then r else ChangeLine(RenamedLine(s, t, user, line), quantity)
    case DropLine(line) => DropLine(RenamedLine(s, t, user, line))
    case RemoveItem(line) => RemoveItem(RenamedLine(s, t, user, line))
    case BatchDelete(ids) =>
      if ids.None? then r
      else BatchDelete(Some(seq(|ids.value|, k requires 0 <= k < |ids.value| => RenamedLine(s, t, user, Some(ids.value[k])).value)))
    case ConfirmOrder(basket, contact) => ConfirmOrder(RenamedBasket(s, t, user, basket), contact)
    case _ => r
  }

  lemma RowsAreHeld(s: Sales, user: Id, line: Option<int>)
    requires ValidSales(s) && RowOf(s, user, line).Some?
    ensures ContentOf(s, user).Some? && RowOf(s, user, line).value in ContentOf(s, user).value
  {
    QuantityOf(s.lines.rows, line.value);
  }

  lemma HeldRowHasLine(t: Sales, user: Id, row: Id)
    requires ValidSales(t) && ContentOf(t, user).Some? && row in ContentOf(t, user).value
    ensures RowOf(t, user, Some(LineFor(t, user, Some(row)))) == Some(row) && LineFor(t, user, Some(row)) in t.lines.rows
  {
    var b := Lookup(Baskets(t.orders.rows, user)).id;
    var l :| l in LinesOf(t.lines.rows, b) && t.lines.rows[l].info == row;
    TheLine(t.lines.rows, l);
  }

  lemma UnusedLine(t: Sales, user: Id)
    requires ValidSales(t)
    ensures RowOf(t, user, Some(t.lines.next)) == None && LineFor(t, user, None) == t.lines.next
  {}

  /** The renamed id stands for the same row. */
  lemma RenamedRow(s: Sales, t: Sales, user: Id, line: Option<int>)
    requires ValidSales(s) && ValidSales(t) && ContentOf(s, user) == ContentOf(t, user)
    ensures RowOf(t, user, RenamedLine(s, t, user, line)) == RowOf(s, user, line)
  {
    if line.Some? {
      if RowOf(s, user, line).Some? {
        RowsAreHeld(s, user, line);
        HeldRowHasLine(t, user, RowOf(s, user, line).value);
      } else {
        UnusedLine(t, user);
      }
    }
  }

  lemma RowsOfIds(s: Sales, user: Id, ids: seq<int>, i: Id)
    ensures i in RowsOf(s, user, ids) <==> exists k :: 0 <= k < |ids| && RowOf(s, user, Some(ids[k])) == Some(i)
  {
    if Lookup(Baskets(s.orders.rows, user)).One? {
      var b := Lookup(Baskets(s.orders.rows, user)).id;
      if i in RowsOf(s, user, ids) {
        var l :| l in Named(s.lines.rows, b, ids) && s.lines.rows[l].info == i;
        var k :| 0 <= k < |ids| && ids[k] == l;
        assert RowOf(s, user, Some(ids[k])) == Some(i);
      }
      if k :| 0 <= k < |ids| && RowOf(s, user, Some(ids[k])) == Some(i) {
        var l := ids[k];
        assert l in Named(s.lines.rows, b, ids) && s.lines.rows[l].info == i;
      }
    }
  }

  lemma RenamedRows(s: Sales, t: Sales, user: Id, ids: seq<int>)
    requires ValidSales(s) && ValidSales(t) && ContentOf(s, user) == ContentOf(t, user)
    ensures RowsOf(t, user, Renamed(s, t, user, BatchDelete(Some(ids))).lines.value) == RowsOf(s, user, ids)
  {
    var named := Renamed(s, t, user, BatchDelete(Some(ids))).lines.value;
    forall k | 0 <= k < |ids| ensures RowOf(t, user, Some(named[k])) == RowOf(s, user, Some(ids[k])) {
      RenamedRow(s, t, user, Some(ids[k]));
    }
    forall i ensures i in RowsOf(t, user, named) <==> i in RowsOf(s, user, ids) {
      RowsOfIds(t, user, named, i);
      RowsOfIds(s, user, ids, i);
      if k :| 0 <= k < |ids| && RowOf(s, user, Some(ids[k])) == Some(i) { assert RowOf(t, user, Some(named[k])) == Some(i); }
    }
    SameSet(RowsOf(t, user, named), RowsOf(s, user, ids));
  }

  lemma RenamedOwnBasket(s: Sales, t: Sales, user: Id, id: Option<int>)
    requires ValidSales(s) && ValidSales(t) && ContentOf(s, user) == ContentOf(t, user)
    ensures OwnBasket(t, user, RenamedBasket(s, t, user, id)) <==> OwnBasket(s, user, id)
  {
    if OwnBasket(s, user, id) {
      assert id.value in Baskets(s.orders.rows, user);
      TheBasket(s, user, id.value);
      assert Lookup(Baskets(t.orders.rows, user)).id in Baskets(t.orders.rows, user);
    }
  }

  /** The renamed line id is a positive number, so that no endpoint takes it for a missing one. */
  lemma RenamedLineSet(s: Sales, t: Sales, user: Id, line: Option<int>)
    requires ValidSales(t) && line.Some?
    ensures !Unset(RenamedLine(s, t, user, line))
  {
    var row := RowOf(s, user, line);
    if Lookup(Baskets(t.orders.rows, user)).One? && row.Some? {
      var b := Lookup(Baskets(t.orders.rows, user)).id;
      if Lookup(LinesAt(t.lines.rows, b, row.value)).One? {
        assert Lookup(LinesAt(t.lines.rows, b, row.value)).id in LinesAt(t.lines.rows, b, row.value);
      }
    }
  }

  /** Under other ids, a request means the same to the simple cart. */
  lemma SameAbstract(s: Sales, t: Sales, user: Id, r: Request)
    requires ValidSales(s) && ValidSales(t) && ContentOf(s, user) == ContentOf(t, user) && s.contacts == t.contacts
    ensures Abstract(t, user, Renamed(s, t, user, r)) == Abstract(s, user, r)
  {
    match r
    case ChangeLine(line, _) =>
      if !Unset(line) {
        RenamedRow(s, t, user, line);
        RenamedLineSet(s, t, user, line);
      } else {
        UnsetRow(s, user, line);
        UnsetRow(t, user, line);
      }
    case DropLine(line) => RenamedRow(s, t, user, line);
    case RemoveItem(line) => RenamedRow(s, t, user, line);
    case BatchDelete(ids) => if ids.Some? { RenamedRows(s, t, user, ids.value); }
    case ConfirmOrder(basket, _) => RenamedOwnBasket(s, t, user, basket);
    case _ =>
  }

  lemma UnsetRow(s: Sales, user: Id, line: Option<int>)
    requires ValidSales(s) && Unset(line)
    ensures RowOf(s, user, line) == None
  {}

  // ---------- Events ----------

  ghost predicate Alike(a: System, b: System, user: Id) {
    AlikeDb(a.db, b.db, user) && a.loads == b.loads && a.queue == b.queue && a.worker == b.worker
  }

  /** A cart request of somebody else. */
  predicate Removable(e: Event, user: Id) {
    e.Ask? && e.user != user && !e.request.AddContact?
  }

  predicate Own(e: Event, user: Id) {
    e.Ask? && e.user == user
  }

  ghost function Mirror(a: System, b: System, user: Id, e: Event): Event {
    if Own(e, user) then Ask(user, Renamed(a.db.sales, b.db.sales, user, e.request)) else e
  }

  lemma HandleContacts(infos: map<Id, Info>, s: Sales, user: Id, r: Request)
    ensures Handle(infos, s, user, r).sales.contacts ==
      if r.AddContact? && ValidAddress(r.address) then s.contacts.Insert(Contact(user)) else s.contacts
  {}

  lemma RemovedAlike(a: System, b: System, user: Id, e: Event)
    requires Alike(a, b, user) && ValidDb(a.db) && Removable(e, user)
    ensures Alike(Next(a, e), b, user)
  {
    HandleContacts(a.db.catalog.infos.rows, a.db.sales, e.user, e.request);
    OthersKeepContent(a.db.catalog.infos.rows, a.db.sales, e.user, e.request, user);
  }

  lemma HandledAlike(infos: map<Id, Info>, s: Sales, t: Sales, user: Id, r: Request)
    requires ValidSales(s) && ValidSales(t) && ContentOf(s, user) == ContentOf(t, user)
    requires Abstract(s, user, r) == Abstract(t, user, Renamed(s, t, user, r))
    ensures var h, k := Handle(infos, s, user, r), Handle(infos, t, user, Renamed(s, t, user, r));
      ContentOf(h.sales, user) == ContentOf(k.sales, user) && h.response == k.response
  {
    CartRefines(infos, s, user, r);
    CartRefines(infos, t, user, Renamed(s, t, user, r));
  }

  lemma OwnHandled(infos: map<Id, Info>, s: Sales, t: Sales, user: Id, r: Request)
    requires ValidSales(s) && ValidSales(t) && ContentOf(s, user) == ContentOf(t, user) && s.contacts == t.contacts
    ensures var h, k := Handle(infos, s, user, r), Handle(infos, t, user, Renamed(s, t, user, r));
      ContentOf(h.sales, user) == ContentOf(k.sales, user) && h.response == k.response && h.sales.contacts == k.sales.contacts
  {
    var q := Renamed(s, t, user, r);
    SameAbstract(s, t, user, r);
    HandledAlike(infos, s, t, user, r);
    HandleContacts(infos, s, user, r);
    HandleContacts(infos, t, user, q);
  }

  lemma OwnAlike(a: System, b: System, user: Id, r: Request)
    requires Alike(a, b, user) && ValidDb(a.db) && ValidDb(b.db)
    ensures var q := Renamed(a.db.sales, b.db.sales, user, r);
      && Alike(Next(a, Ask(user, r)), Next(b, Ask(user, q)), user)
      && Answer(a, Ask(user, r)) == Answer(b, Ask(user, q))
  {
    OwnHandled(a.db.catalog.infos.rows, a.db.sales, b.db.sales, user, r);
  }

  lemma ContactHandled(infos: map<Id, Info>, s: Sales, t: Sales, user: Id, other: Id, r: Request)
    requires ValidSales(s) && ValidSales(t) && other != user && r.AddContact?
    requires forall l :: l in s.lines.rows ==> s.lines.rows[l].info in infos
    requires forall l :: l in t.lines.rows ==> t.lines.rows[l].info in infos
    requires ContentOf(s, user) == ContentOf(t, user) && s.contacts == t.contacts
    ensures var h, k := Handle(infos, s, other, r).sales, Handle(infos, t, other, r).sales;
      ContentOf(h, user) == ContentOf(k, user) && h.contacts == k.contacts
  {
    OthersKeepContent(infos, s, other, r, user);
    OthersKeepContent(infos, t, other, r, user);
    HandleContacts(infos, s, other, r);
    HandleContacts(infos, t, other, r);
  }

  lemma ContactAlike(a: System, b: System, user: Id, other: Id, r: Request)
    requires Alike(a, b, user) && ValidDb(a.db) && ValidDb(b.db) && other != user && r.AddContact?
    ensures Alike(Next(a, Ask(other, r)), Next(b, Ask(other, r)), user)
  {
    ContactHandled(a.db.catalog.infos.rows, a.db.sales, b.db.sales, user, other, r);
  }

  lemma LoadStepAlike(a: System, b: System, user: Id, k: nat)
    requires Alike(a, b, user) && ValidSales(a.db.sales) && ValidSales(b.db.sales)
    ensures Alike(Next(a, LoadStep(k)), Next(b, LoadStep(k)), user)
  {
    if k < |a.loads| { StepAlike(a.db, b.db, a.loads[k], user); }
  }

  lemma WorkerStepAlike(a: System, b: System, user: Id)
    requires Alike(a, b, user) && ValidSales(a.db.sales) && ValidSales(b.db.sales)
    ensures Alike(Next(a, WorkerStep), Next(b, WorkerStep), user)
  {
    StepAlike(a.db, b.db, a.worker, user);
  }

  /** Uploads, triggers, the starts and the deaths of jobs. */
  lemma QuietAlike(a: System, b: System, user: Id, e: Event)
    requires Alike(a, b, user) && !e.Ask? && !e.LoadStep? && !e.WorkerStep?
    ensures Alike(Next(a, e), Next(b, e), user)
  {}

  lemma ImportAlike(a: System, b: System, user: Id, e: Event)
    requires Alike(a, b, user) && ValidSales(a.db.sales) && ValidSales(b.db.sales) && !e.Ask?
    ensures Alike(Next(a, e), Next(b, e), user)
  {
    if e.LoadStep? {
      LoadStepAlike(a, b, user, e.job);
    } else if e.WorkerStep? {
      WorkerStepAlike(a, b, user);
    } else {
      QuietAlike(a, b, user, e);
    }
  }

  // ---------- Runs ----------

  ghost predicate Coupled(a: System, b: System, user: Id) {
    Alike(a, b, user) && ValidSystem(a) && ValidSystem(b)
  }

  lemma RemovedStep(a: System, b: System, user: Id, e: Event)
    requires Coupled(a, b, user) && Removable(e, user)
    ensures Coupled(Next(a, e), b, user)
  {
    RemovedAlike(a, b, user, e);
    NextKeepsValid(a, e);
  }

  lemma KeptAlike(a: System, b: System, user: Id, e: Event)
    requires Alike(a, b, user) && ValidDb(a.db) && ValidDb(b.db) && !Removable(e, user)
    ensures var f := Mirror(a, b, user, e);
      && Alike(Next(a, e), Next(b, f), user) && !Removable(f, user) && (Own(f, user) <==> Own(e, user))
      && (Own(e, user) ==> Answer(a, e) == Answer(b, f))
  {
    if Own(e, user) {
      OwnAlike(a, b, user, e.request);
    } else if e.Ask? {
      ContactAlike(a, b, user, e.user, e.request);
    } else {
      ImportAlike(a, b, user, e);
    }
  }

  lemma KeptStep(a: System, b: System, user: Id, e: Event)
    requires Coupled(a, b, user) && !Removable(e, user)
    ensures var f := Mirror(a, b, user, e);
      && Coupled(Next(a, e), Next(b, f), user) && !Removable(f, user) && (Own(f, user) <==> Own(e, user))
      && (Own(e, user) ==> Answer(a, e) == Answer(b, f))
  {
    KeptAlike(a, b, user, e);
    NextKeepsValid(a, e);
    NextKeepsValid(b, Mirror(a, b, user, e));
  }

  /** The answers one user gets. */
  ghost function AnswersTo(y: System, user: Id, es: seq<Event>): seq<Response>
    decreases |es|
  {
    if es == [] then []
    else (if Own(es[0], user) then [Answer(y, es[0])] else []) + AnswersTo(Next(y, es[0]), user, es[1..])
  }

  ghost function NextOf(): (System, Event) -> System {
    (y: System, e: Event) => Next(y, e)
  }

  ghost function AnswerOf(): (System, Event) -> Response {
    (y: System, e: Event) => Answer(y, e)
  }

  ghost function OwnOf(user: Id): Event -> bool {
    (e: Event) => Own(e, user)
  }

  ghost function RemovableOf(user: Id): Event -> bool {
    (e: Event) => Removable(e, user)
  }

  ghost function MirrorOf(user: Id): (System, System, Event) -> Event {
    (y: System, z: System, e: Event) => Mirror(y, z, user, e)
  }

  ghost function GoodOf(user: Id): (System, System) -> bool {
    (y: System, z: System) => Coupled(y, z, user)
  }

  /** The run that is left when every other user's cart requests are removed, in the ids it then has. */
  ghost function Without(a: System, b: System, user: Id, es: seq<Event>): seq<Event> {
    Kept(NextOf(), RemovableOf(user), MirrorOf(user), a, b, es)
  }

  lemma RemovedOf(user: Id, y: System, z: System, e: Event)
    requires GoodOf(user)(y, z) && RemovableOf(user)(e)
    ensures GoodOf(user)(NextOf()(y, e), z)
  {
    RemovedStep(y, z, user, e);
  }

  lemma KeptOf(user: Id, y: System, z: System, e: Event)
    requires GoodOf(user)(y, z) && !RemovableOf(user)(e)
    ensures var f := MirrorOf(user)(y, z, e);
      && GoodOf(user)(NextOf()(y, e), NextOf()(z, f)) && !RemovableOf(user)(f)
      && (OwnOf(user)(f) <==> OwnOf(user)(e)) && (OwnOf(user)(e) ==> AnswerOf()(y, e) == AnswerOf()(z, f))
  {
    KeptStep(y, z, user, e);
  }

  lemma SystemMirrors(user: Id)
    ensures Mirrors(NextOf(), AnswerOf(), OwnOf(user), RemovableOf(user), MirrorOf(user), GoodOf(user))
  {
    var next, answer, own, removable, mirror, good := NextOf(), AnswerOf(), OwnOf(user), RemovableOf(user), MirrorOf(user), GoodOf(user);
    forall y, z, e | good(y, z) && removable(e) ensures good(next(y, e), z) { RemovedOf(user, y, z, e); }
    forall y, z, e | good(y, z) && !removable(e)
      ensures good(next(y, e), next(z, mirror(y, z, e))) && !removable(mirror(y, z, e))
      ensures (own(mirror(y, z, e)) <==> own(e)) && (own(e) ==> answer(y, e) == answer(z, mirror(y, z, e)))
    {
      KeptOf(user, y, z, e);
    }
  }

  lemma {:induction false} PlayIsFold(y: System, es: seq<Event>)
    ensures Fold(NextOf(), y, es) == Play(y, es)
    decreases |es|
  {
    if es != [] {
      PlayIsFold(Next(y, es[0]), es[1..]);
    }
  }

  lemma {:induction false} AnswersAreHeard(y: System, user: Id, es: seq<Event>)
    ensures Heard(NextOf(), AnswerOf(), OwnOf(user), y, es) == AnswersTo(y, user, es)
    decreases |es|
  {
    if es != [] {
      AnswersAreHeard(Next(y, es[0]), user, es[1..]);
    }
  }

  lemma RunsAlike(a: System, b: System, user: Id, es: seq<Event>)
    requires Coupled(a, b, user)
    ensures var fs := Without(a, b, user, es);
      && AnswersTo(a, user, es) == AnswersTo(b, user, fs)
      && Coupled(Play(a, es), Play(b, fs), user)
      && forall f :: f in fs ==> !Removable(f, user)
  {
    SystemMirrors(user);
    Unwind(NextOf(), AnswerOf(), OwnOf(user), RemovableOf(user), MirrorOf(user), GoodOf(user), a, b, es);
    var fs := Without(a, b, user, es);
    PlayIsFold(a, es);
    PlayIsFold(b, fs);
    AnswersAreHeard(a, user, es);
    AnswersAreHeard(b, user, fs);
    assert forall f :: f in fs ==> !RemovableOf(user)(f);
  }

  lemma EmptyIsGood(user: Id)
    ensures Coupled(EMPTY_SYSTEM, EMPTY_SYSTEM, user)
  {
    Safety.EveryRunIsValid([]);
  }

  /**
   Non-interference: in the run without other users' cart requests the user gets the same answers and
   ends with the same cart, before the same catalogue.
   */
  lemma NonInterference(es: seq<Event>, user: Id)
    ensures var fs := Without(EMPTY_SYSTEM, EMPTY_SYSTEM, user, es);
      var y, z := Play(EMPTY_SYSTEM, es), Play(EMPTY_SYSTEM, fs);
      && (forall f :: f in fs ==> !Removable(f, user))
      && AnswersTo(EMPTY_SYSTEM, user, es) == AnswersTo(EMPTY_SYSTEM, user, fs)
      && ContentOf(y.db.sales, user) == ContentOf(z.db.sales, user)
      && y.db.catalog == z.db.catalog && y.db.tasks == z.db.tasks
  {
    EmptyIsGood(user);
    RunsAlike(EMPTY_SYSTEM, EMPTY_SYSTEM, user, es);
  }
}
