/**
 The endpoints as they are written, against the database in place.  Each is proved against its
 specification in modules Cart, System and Removal, and says what it leaves alone.
 */
module Endpoints {
  import opened Prelude
  import opened Tables
  import opened Programs
  import opened Cart
  import opened Totals
  import opened Removal
  import opened System
  import opened Store

  /** The request has acted on the sales tables as specified, and on nothing else. */
  ghost predicate Served(before: Db, after: Db, user: Id, r: Request, response: Response) {
    var h := Handle(before.catalog.infos.rows, before.sales, user, r);
    after == before.(sales := h.sales) && response == h.response
  }

  // ---------- CartView ----------

  /** `Order.objects.get_or_create(user, state='basket')` */
  method OpenBasket(db: Database, user: Id) returns (found: Found<Id>)
    modifies db
    ensures var before := old(db.Snapshot());
      match Lookup(Baskets(before.sales.orders.rows, user))
      case One(b) => found == One(b) && db.Snapshot() == before
      case Multiple => found == Multiple && db.Snapshot() == before
      case NotFound =>
        found == One(before.sales.orders.next) && db.Snapshot() == before.(sales := NewBasket(before.sales, user))
  {
    found := Fetch(Baskets(db.orders.rows, user));
    if found.NotFound? {
      found := One(db.orders.next);
      db.orders := db.orders.Insert(Order(user, Basket, None));
    }
  }

  /** The serialized items of a basket, by product row. */
  method Items(db: Database, basket: Id) returns (items: map<Id, int>)
    ensures items == Quantities(db.lines.rows, basket)
  {
    var own := LinesOf(db.lines.rows, basket);
    items := map[];
    var rest := own;
    while rest != {}
      invariant rest <= own
      invariant items == map i | i in (set l | l in own - rest :: db.lines.rows[l].info) :: QuantityAt(db.lines.rows, basket, i)
      decreases rest
    {
      var l := Take(rest);
      var i := db.lines.rows[l].info;
      var found := Fetch(LinesAt(db.lines.rows, basket, i));
      assert found.One? ==> found.id in LinesAt(db.lines.rows, basket, i);
      items := items[i := if found.One? then db.lines.rows[found.id].quantity else 0];
      rest := rest - {l};
      assert own - rest == own - (rest + {l}) + {l};
    }
    assert own - rest == own;
  }

  method Take<T(==)>(s: set<T>) returns (x: T)
    requires s != {}
    ensures x in s
  {
    x :| x in s;
  }

  method GetCart(db: Database, user: Id) returns (r: Response)
    modifies db
    ensures Served(old(db.Snapshot()), db.Snapshot(), user, ViewCart, r)
  {
    var basket := OpenBasket(db, user);
    if basket.Multiple? {
      return Status(500);
    }
    var items := Items(db, basket.id);
    r := Response(200, 0, items);
  }

  method PostCart(db: Database, user: Id, info: Option<int>, quantity: Field<int>) returns (r: Response)
    modifies db
    ensures Served(old(db.Snapshot()), db.Snapshot(), user, AddToCart(info, quantity), r)
  {
    var basket := OpenBasket(db, user);
    if basket.Multiple? {
      return Status(500);
    }
    var wanted := quantity.GetOr(1);
    if Unset(info) || Unset(wanted) {
      return Status(400);
    }
    if info.value !in db.infos.rows {
      return Status(404);
    }
    var stock := db.infos.rows[info.value].quantity;
    if wanted.value > stock {
      return Status(400);
    }
    var line := Fetch(LinesAt(db.lines.rows, basket.id, info.value));
    match line {
      case Multiple => r := Status(500);
      case NotFound =>
        if wanted.value < 0 {
          return Status(500);
        }
        db.lines := db.lines.Insert(Line(basket.id, info.value, wanted.value));
        r := Status(201);
      case One(l) =>
        assert l in LinesAt(db.lines.rows, basket.id, info.value);
        var item := db.lines.rows[l];
        item := item.(quantity := item.quantity + wanted.value);
        if item.quantity > stock {
          return Status(400);
        }
        if item.quantity < 0 {
          return Status(500);
        }
        db.lines := db.lines.Update(l, item);
        r := Status(201);
    }
  }

  method PutCart(db: Database, user: Id, line: Option<int>, quantity: Option<int>) returns (r: Response)
    modifies db
    ensures Served(old(db.Snapshot()), db.Snapshot(), user, ChangeLine(line, quantity), r)
  {
    var basket := Fetch(Baskets(db.orders.rows, user));
    if !basket.One? {
      return Status(if basket.NotFound? then 404 else 500);
    }
    if Unset(line) || quantity.None? {
      return Status(400);
    }
    if line.value !in LinesOf(db.lines.rows, basket.id) {
      return Status(404);
    }
    var item := db.lines.rows[line.value];
    if item.info !in db.infos.rows {
      return Status(500);
    }
    if quantity.value > db.infos.rows[item.info].quantity {
      return Status(400);
    }
    if quantity.value <= 0 {
      db.lines := db.lines.Delete({line.value});
    } else {
      db.lines := db.lines.Update(line.value, item.(quantity := quantity.value));
    }
    r := Status(200);
  }

  /** CartView.delete and DeleteCartItemView.delete, which answer 204 and 200. */
  method DeleteItem(db: Database, user: Id, line: Option<int>, success: int) returns (r: Response)
    requires success == 204 || success == 200
    modifies db
    ensures Served(old(db.Snapshot()), db.Snapshot(), user, if success == 204 then DropLine(line) else RemoveItem(line), r)
  {
    var basket := Fetch(Baskets(db.orders.rows, user));
    if !basket.One? {
      return Status(if basket.NotFound? then 404 else 500);
    }
    if line.None? {
      return Status(400);
    }
    if line.value !in LinesOf(db.lines.rows, basket.id) {
      return Status(404);
    }
    db.lines := db.lines.Delete({line.value});
    r := Status(success);
  }

  method PostBatchDelete(db: Database, user: Id, ids: Option<seq<int>>) returns (r: Response)
    modifies db
    ensures Served(old(db.Snapshot()), db.Snapshot(), user, BatchDelete(ids), r)
  {
    var basket := Fetch(Baskets(db.orders.rows, user));
    if !basket.One? {
      return Status(if basket.NotFound? then 404 else 500);
    }
    if ids.None? || ids.value == [] {
      return Status(400);
    }
    var own := LinesOf(db.lines.rows, basket.id);
    var doomed := set l | l in own && l in ids.value;
    r := Response(200, |doomed|, map[]);
    db.lines := db.lines.Delete(doomed);
  }

  method DeleteAllItems(db: Database, user: Id) returns (r: Response)
    modifies db
    ensures Served(old(db.Snapshot()), db.Snapshot(), user, Request.ClearCart, r)
  {
    var basket := Fetch(Baskets(db.orders.rows, user));
    if !basket.One? {
      return Status(if basket.NotFound? then 404 else 500);
    }
    var doomed := LinesOf(db.lines.rows, basket.id);
    r := Response(200, |doomed|, map[]);
    db.lines := db.lines.Delete(doomed);
  }

  // ---------- OrderConfirmationView, AddContactView ----------

  method PostConfirmation(db: Database, user: Id, basket: Option<int>, contact: Option<int>) returns (r: Response)
    modifies db
    ensures Served(old(db.Snapshot()), db.Snapshot(), user, ConfirmOrder(basket, contact), r)
  {
    var basketOk := basket.Some? && basket.value in db.orders.rows &&
      db.orders.rows[basket.value].user == user && db.orders.rows[basket.value].state == Basket;
    var contactOk := contact.Some? && contact.value in db.contacts.rows && db.contacts.rows[contact.value].user == user;
    if !basketOk || !contactOk {
      return Status(400);
    }
    var order := db.orders.rows[basket.value];
    order := order.(state := Confirmed);
    order := order.(contact := contact);
    db.orders := db.orders.Update(basket.value, order);
    r := Status(200);
  }

  method PostContact(db: Database, user: Id, address: Address) returns (r: Response)
    modifies db
    ensures Served(old(db.Snapshot()), db.Snapshot(), user, AddContact(address), r)
  {
    if !ValidAddress(address) {
      return Status(400);
    }
    db.contacts := db.contacts.Insert(Contact(user));
    r := Status(201);
  }

  // ---------- OrderHistorySerializer.get_total_price ----------

  method TotalPrice(db: Database, order: Id) returns (total: int)
    ensures total == OrderTotal(db.Snapshot(), order)
  {
    ghost var all := LineTotals(db.infos.rows, db.lines.rows, order);
    var rest := LinesOf(db.lines.rows, order);
    assert all - (all.Keys - rest) == all;
    total := 0;
    while rest != {}
      invariant rest <= all.Keys
      invariant total + Sum(all - (all.Keys - rest)) == Sum(all)
      decreases rest
    {
      var l := Take(rest);
      SumRemove(all - (all.Keys - rest), l);
      assert all - (all.Keys - rest) - {l} == all - (all.Keys - (rest - {l}));
      total := total + LineTotal(db.infos.rows, db.lines.rows[l]);
      rest := rest - {l};
    }
    assert all - (all.Keys - rest) == map[];
  }

  // ---------- Reference BasketView.delete ----------

  /**
   The reference loop over comma-separated ids: one OR-ed filter per digit string.  It creates the
   basket if there is none, and deletes what the disjunction selects.
   */
  method DeleteListed(db: Database, user: Id, items: string) returns (deleted: Option<nat>)
    modifies db
    ensures var before := old(db.Snapshot()); var found := Lookup(Baskets(before.sales.orders.rows, user));
      if items == "" || found.Multiple? then deleted.None? && db.Snapshot() == before
      else
        var s, b := if found.One? then before.sales else NewBasket(before.sales, user), if found.One? then found.id else before.sales.orders.next;
        var query := Terms(b, Split(items));
        && db.Snapshot() == before.(sales := Remove(s, Selection(s.lines.rows, query)))
        && deleted == if query == [] then None else Some(|Selection(s.lines.rows, query)|)
  {
    if items == "" {
      return None;
    }
    var list := Split(items);
    var basket := OpenBasket(db, user);
    if basket.Multiple? {
      return None;
    }
    var query: seq<Term> := [];
    var any := false;
    for i := 0 to |list|
      invariant query == Terms(basket.id, list[..i]) && (any <==> query != [])
    {
      assert list[..i+1][..i] == list[..i];
      if IsDigits(list[i]) {
        query := query + [Term(basket.id, Parse(list[i]))];
        any := true;
      }
    }
    assert list[..|list|] == list;
    if !any {
      assert Selection(db.lines.rows, query) == {};
      assert db.lines.rows - {} == db.lines.rows;
      return None;
    }
    var doomed := set l | l in db.lines.rows && exists q :: q in query && q.order == db.lines.rows[l].order && q.id == l;
    assert doomed == Selection(db.lines.rows, query);
    deleted := Some(|doomed|);
    db.lines := db.lines.Delete(doomed);
  }

  // ---------- trigger_import ----------

  /** The message broker: ids of tasks that the worker will take in turn. */
  class Broker {
    var queue: seq<Id>

    constructor ()
      ensures queue == []
    {
      queue := [];
    }
  }

  method TriggerImport(db: Database, broker: Broker, task: Option<int>) returns (status: int)
    modifies broker
    ensures status == TriggerStatus(db.Snapshot(), task)
    ensures broker.queue == if status == 200 then old(broker.queue) + [task.value] else old(broker.queue)
  {
    if Unset(task) {
      return 400;
    }
    if task.value !in db.tasks.rows {
      return 404;
    }
    if db.tasks.rows[task.value].processed {
      return 400;
    }
    broker.queue := broker.queue + [task.value];
    status := 200;
  }
}
