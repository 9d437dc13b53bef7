/**
 What each endpoint answers and writes, over the rows of the tables and the fields of the request alone.
 Nothing here is defined by the checks that the endpoints themselves make.
 */
module Answers {
  import opened Prelude
  import opened Tables
  import opened Programs
  import opened Cart
  import opened System

  // ---------- What the tables hold ----------

  ghost predicate IsBasket(s: Sales, b: Id, user: Id) {
    b in s.orders.rows && s.orders.rows[b].user == user && s.orders.rows[b].state == OrderState.Basket
  }

  ghost predicate IsLine(s: Sales, l: Id, b: Id) {
    l in s.lines.rows && s.lines.rows[l].order == b
  }

  /** The basket's line for this product row. */
  ghost predicate LineOfRow(s: Sales, l: Id, b: Id, i: Id) {
    l in s.lines.rows && s.lines.rows[l].order == b && s.lines.rows[l].info == i
  }

  ghost predicate NoBasket(s: Sales, user: Id) {
    forall b :: !IsBasket(s, b, user)
  }

  lemma FindsBasket(s: Sales, user: Id, b: Id)
    requires ValidSales(s) && IsBasket(s, b, user)
    ensures Lookup(Baskets(s.orders.rows, user)) == One(b)
  {
    Singleton(Baskets(s.orders.rows, user), b);
  }

  lemma FindsNoBasket(s: Sales, user: Id)
    requires NoBasket(s, user)
    ensures Lookup(Baskets(s.orders.rows, user)) == NotFound
  {
    forall b ensures b !in Baskets(s.orders.rows, user) { assert !IsBasket(s, b, user); }
    Nothing(Baskets(s.orders.rows, user));
  }

  lemma FindsLine(s: Sales, l: Id, b: Id, i: Id)
    requires ValidSales(s) && LineOfRow(s, l, b, i)
    ensures Lookup(LinesAt(s.lines.rows, b, i)) == One(l)
  {
    Singleton(LinesAt(s.lines.rows, b, i), l);
  }

  lemma FindsNoLine(s: Sales, b: Id, i: Id)
    requires forall l :: !LineOfRow(s, l, b, i)
    ensures Lookup(LinesAt(s.lines.rows, b, i)) == NotFound
  {
    forall l ensures l !in LinesAt(s.lines.rows, b, i) { assert !LineOfRow(s, l, b, i); }
    Nothing(LinesAt(s.lines.rows, b, i));
  }

  /** An answer with a status alone, and the tables left as they are. */
  ghost predicate Says(h: Handled, s: Sales, status: int) {
    h.sales == s && h.response == Response(status, 0, map[])
  }

  // ---------- POST basket/ ----------

  /** A quantity that counts: an absent one is 1; null and zero do not count. */
  function Wanted(quantity: Field<int>): Option<int> {
    match quantity
    case Missing => Some(1)
    case Null => None
    case Given(q) => if q == 0 then None else Some(q)
  }

  /** An id that counts: null and zero do not. */
  function Chosen(id: Option<int>): Option<int> {
    match id
    case None => None
    case Some(i) => if i == 0 then None else Some(i)
  }

  /** Adding q of row i to a basket that may hold some of it already. */
  ghost predicate Adds(infos: map<Id, Info>, s: Sales, b: Id, i: Id, q: int, h: Handled) {
    if i !in infos then Says(h, s, 404)
    else if q > infos[i].quantity then Says(h, s, 400)
    else
      && ((forall l :: !LineOfRow(s, l, b, i)) ==>
            if q < 0 then Says(h, s, 500)
            else
              && h.sales == s.(lines := Table(s.lines.rows[s.lines.next := Line(b, i, q)], s.lines.next + 1))
              && h.response == Response(201, 0, map[]))
      && (forall l | LineOfRow(s, l, b, i) ::
            var total := s.lines.rows[l].quantity + q;
            if total > infos[i].quantity then Says(h, s, 400)
            else if total < 0 then Says(h, s, 500)
            else
              && h.sales == s.(lines := Table(s.lines.rows[l := Line(b, i, total)], s.lines.next))
              && h.response == Response(201, 0, map[]))
  }

  /** POST of a user who has a basket, for every request body and every store. */
  lemma AddAnswers(infos: map<Id, Info>, s: Sales, user: Id, b: Id, info: Option<int>, quantity: Field<int>)
    requires ValidSales(s) && IsBasket(s, b, user)
    ensures var h := Handle(infos, s, user, AddToCart(info, quantity));
      if Chosen(info).None? || Wanted(quantity).None? then Says(h, s, 400)
      else Adds(infos, s, b, Chosen(info).value, Wanted(quantity).value, h)
  {
    FindsBasket(s, user, b);
    var h := Handle(infos, s, user, AddToCart(info, quantity));
    if Chosen(info).Some? && Wanted(quantity).Some? && info.value in infos && Wanted(quantity).value <= infos[info.value].quantity {
      var i := info.value;
      if l :| LineOfRow(s, l, b, i) {
        FindsLine(s, l, b, i);
        assert forall m :: LineOfRow(s, m, b, i) ==> m == l;
      } else {
        FindsNoLine(s, b, i);
      }
    }
  }

  /** 201 exactly when both are given and not zero, the row exists, and wanted and new total are within stock. */
  lemma AddedExactly(infos: map<Id, Info>, s: Sales, user: Id, b: Id, info: Option<int>, quantity: Field<int>)
    requires ValidSales(s) && IsBasket(s, b, user)
    ensures Handle(infos, s, user, AddToCart(info, quantity)).response.status == 201 <==>
      && info.Some? && info.value != 0 && info.value in infos
      && quantity != Null && quantity != Given(0)
      && var q := if quantity.Given? then quantity.value else 1;
      && q <= infos[info.value].quantity
      && ((forall l :: !LineOfRow(s, l, b, info.value)) ==> 0 <= q)
      && forall l | LineOfRow(s, l, b, info.value) :: 0 <= s.lines.rows[l].quantity + q <= infos[info.value].quantity
  {
    AddAnswers(infos, s, user, b, info, quantity);
  }

  /** The tables with a new and empty basket. */
  ghost function WithBasket(s: Sales, user: Id): Sales {
    s.(orders := Table(s.orders.rows[s.orders.next := Order(user, OrderState.Basket, None)], s.orders.next + 1))
  }

  /** A user without a basket gets one first, whatever the answer is. */
  lemma OpensBasket(infos: map<Id, Info>, s: Sales, user: Id, r: Request)
    requires ValidSales(s) && NoBasket(s, user) && (r.ViewCart? || r.AddToCart?)
    ensures var t := WithBasket(s, user);
      ValidSales(t) && IsBasket(t, s.orders.next, user) && Handle(infos, s, user, r) == Handle(infos, t, user, r)
  {
    FindsNoBasket(s, user);
    var t := WithBasket(s, user);
    assert forall o :: o in s.orders.rows ==> !IsBasket(s, o, user);
    FindsBasket(t, user, s.orders.next);
  }

  // ---------- GET basket/ ----------

  /** GET shows each line of the basket, and nothing else. */
  lemma ViewAnswers(infos: map<Id, Info>, s: Sales, user: Id, b: Id)
    requires ValidSales(s) && IsBasket(s, b, user)
    ensures var h := Handle(infos, s, user, ViewCart); var items := h.response.items;
      && h.sales == s && h.response.status == 200 && h.response.deleted == 0
      && (forall i :: i in items <==> exists l :: LineOfRow(s, l, b, i))
      && (forall l, i | LineOfRow(s, l, b, i) :: i in items && items[i] == s.lines.rows[l].quantity)
  {
    FindsBasket(s, user, b);
    var items := Handle(infos, s, user, ViewCart).response.items;
    forall l, i | LineOfRow(s, l, b, i) ensures i in items && items[i] == s.lines.rows[l].quantity {
      assert l in LinesOf(s.lines.rows, b);
      FindsLine(s, l, b, i);
    }
    forall i | i in items ensures exists l :: LineOfRow(s, l, b, i) {
      var l :| l in LinesOf(s.lines.rows, b) && s.lines.rows[l].info == i;
      assert LineOfRow(s, l, b, i);
    }
  }

  // ---------- PUT and DELETE ----------

  /** PUT, for every request body; a line's row is always listed in a store without dangling references. */
  lemma ChangeAnswers(infos: map<Id, Info>, s: Sales, user: Id, b: Id, line: Option<int>, quantity: Option<int>)
    requires ValidSales(s) && IsBasket(s, b, user) && forall l :: l in s.lines.rows ==> s.lines.rows[l].info in infos
    ensures var h := Handle(infos, s, user, ChangeLine(line, quantity));
      if line.None? || line.value == 0 || quantity.None? then Says(h, s, 400)
      else if !IsLine(s, line.value, b) then Says(h, s, 404)
      else
        var row, q := s.lines.rows[line.value], quantity.value;
        if q > infos[row.info].quantity then Says(h, s, 400)
        else
          && h.response == Response(200, 0, map[])
          && h.sales == s.(lines := Table(if q <= 0 then s.lines.rows - {line.value} else s.lines.rows[line.value := Line(b, row.info, q)], s.lines.next))
  {
    FindsBasket(s, user, b);
  }

  /** Both DELETE views, which differ in the status of success. */
  lemma DropAnswers(infos: map<Id, Info>, s: Sales, user: Id, b: Id, line: Option<int>, r: Request)
    requires ValidSales(s) && IsBasket(s, b, user) && (r == DropLine(line) || r == RemoveItem(line))
    ensures var h := Handle(infos, s, user, r);
      if line.None? then Says(h, s, 400)
      else if !IsLine(s, line.value, b) then Says(h, s, 404)
      else
        && h.response == Response(if r.DropLine? then 204 else 200, 0, map[])
        && h.sales == s.(lines := Table(s.lines.rows - {line.value}, s.lines.next))
  {
    FindsBasket(s, user, b);
  }

  /** Batch delete: own lines among the ids go, each counted once; nothing listed is an error. */
  lemma BatchAnswers(infos: map<Id, Info>, s: Sales, user: Id, b: Id, ids: seq<int>)
    requires ValidSales(s) && IsBasket(s, b, user)
    ensures var h := Handle(infos, s, user, BatchDelete(Some(ids)));
      if ids == [] then Says(h, s, 400)
      else
        var gone := set l | l in s.lines.rows && s.lines.rows[l].order == b && l in ids;
        && h.response == Response(200, |gone|, map[])
        && h.sales == s.(lines := Table(s.lines.rows - gone, s.lines.next))
    ensures Says(Handle(infos, s, user, BatchDelete(None)), s, 400)
  {
    FindsBasket(s, user, b);
    SameSet(Named(s.lines.rows, b, ids), set l | l in s.lines.rows && s.lines.rows[l].order == b && l in ids);
  }

  /** Clearing: all own lines go. */
  lemma ClearAnswers(infos: map<Id, Info>, s: Sales, user: Id, b: Id)
    requires ValidSales(s) && IsBasket(s, b, user)
    ensures var h, gone := Handle(infos, s, user, Request.ClearCart), set l | l in s.lines.rows && s.lines.rows[l].order == b;
      && h.response == Response(200, |gone|, map[])
      && h.sales == s.(lines := Table(s.lines.rows - gone, s.lines.next))
  {
    FindsBasket(s, user, b);
    SameSet(LinesOf(s.lines.rows, b), set l | l in s.lines.rows && s.lines.rows[l].order == b);
  }

  /** Everything but GET, POST, confirmation and contacts needs a basket. */
  lemma NeedsBasket(infos: map<Id, Info>, s: Sales, user: Id, r: Request)
    requires NoBasket(s, user) && (r.ChangeLine? || r.DropLine? || r.RemoveItem? || r.BatchDelete? || r == Request.ClearCart)
    ensures Says(Handle(infos, s, user, r), s, 404)
  {
    FindsNoBasket(s, user);
  }

  // ---------- Confirmation ----------

  /**
   A confirmation is accepted if and only if the two ids are those of an order of that user in state
   basket, whatever lines it has, and of a contact of that user.  Then that row alone changes.
   */
  lemma ConfirmAnswers(infos: map<Id, Info>, s: Sales, user: Id, basket: Option<int>, contact: Option<int>)
    ensures var h := Handle(infos, s, user, ConfirmOrder(basket, contact));
      if basket.Some? && IsBasket(s, basket.value, user) &&
         contact.Some? && contact.value in s.contacts.rows && s.contacts.rows[contact.value].user == user
      then
        && h.response == Response(200, 0, map[])
        && h.sales == s.(orders := Table(s.orders.rows[basket.value := Order(user, Confirmed, contact)], s.orders.next))
      else Says(h, s, 400)
  {}

  // ---------- Contacts ----------

  /** Some character of the text is neither a blank nor a control character that `strip` removes. */
  predicate NotBlank(f: Field<string>) {
    f.Given? && exists k | 0 <= k < |f.value| :: f.value[k] as int != 32 && !(9 <= f.value[k] as int <= 13) && !(28 <= f.value[k] as int <= 31)
  }

  /** 201 exactly if city, street and phone are given and not blank and no optional part is null. */
  lemma ContactAnswers(infos: map<Id, Info>, s: Sales, user: Id, a: Address)
    ensures var h := Handle(infos, s, user, AddContact(a));
      if NotBlank(a.city) && NotBlank(a.street) && NotBlank(a.phone) &&
         !a.house.Null? && !a.structure.Null? && !a.building.Null? && !a.apartment.Null?
      then
        && h.response == Response(201, 0, map[])
        && h.sales == s.(contacts := Table(s.contacts.rows[s.contacts.next := Contact(user)], s.contacts.next + 1))
      else Says(h, s, 400)
  {
    forall f: Field<string> ensures Filled(f) <==> NotBlank(f) { FilledIsNotBlank(f); }
  }

  lemma FilledIsNotBlank(f: Field<string>)
    ensures Filled(f) <==> NotBlank(f)
  {}

  // ---------- Import tasks ----------

  /** The trigger's status by the contents of the task table; only 200 queues the task, once and at the end. */
  lemma TriggerAnswers(y: System, task: Option<int>)
    ensures var z, status := Next(y, Trigger(task)), Answer(y, Trigger(task)).status; var rows := y.db.tasks.rows;
      && status == (if task.None? || task.value == 0 then 400
                    else if task.value !in rows then 404
                    else if rows[task.value].processed then 400
                    else 200)
      && z == (if status == 200 then y.(queue := y.queue + [task.value]) else y)
  {}

  /** An upload adds one unprocessed task with that very file and counters at zero; nothing else changes. */
  lemma UploadAnswers(y: System, file: PriceFile)
    ensures Next(y, Upload(Some(file))) ==
      y.(db := y.db.(tasks := Table(y.db.tasks.rows[y.db.tasks.next := Task(file, false, Stats(0, 0, 0))], y.db.tasks.next + 1)))
    ensures Next(y, Upload(None)) == y
  {}

  /** An idle worker takes the first task of the queue and starts on that task's own file. */
  lemma WorkerTakesFirst(y: System)
    requires y.worker.rest == [] && y.queue != [] && y.queue[0] in y.db.tasks.rows
    ensures var t, z := y.queue[0], Next(y, WorkerTakes);
      z == y.(queue := y.queue[1..], worker := Job(t, Regs(0, 0, 0, 0, 0, Stats(0, 0, 0)), ImportProgram(y.db.tasks.rows[t].file, t)))
  {}

  /** A new command is one more job with its file's own program; a command or a worker that dies does no more, and queues nothing. */
  lemma JobsStartAndDie(y: System, file: PriceFile, owner: Option<Id>, k: nat)
    ensures Next(y, StartLoad(file, owner)) == y.(loads := y.loads + [Job(0, Regs(0, 0, 0, 0, 0, Stats(0, 0, 0)), LoadProgram(file, owner))])
    ensures k < |y.loads| ==> Next(y, LoadDies(k)) == y.(loads := y.loads[k := Job(y.loads[k].task, y.loads[k].regs, [])])
    ensures var z := Next(y, WorkerDies); z == y.(worker := z.worker) && z.worker.rest == []
  {}
}
