/**
 The cart endpoints refine a cart without rows or ids: an optional map from product row to quantity.
 The answer to a request and the next cart depend on the user's own cart and the stock alone, which is
 what keeps users apart.
 */
module CartRefinement {
  import opened Prelude
  import opened Tables
  import opened Cart

  /** No basket yet, or what the basket holds. */
  type Content = Option<map<Id, int>>

  ghost function ContentOf(s: Sales, user: Id): Content {
    match Lookup(Baskets(s.orders.rows, user))
    case One(b) => Some(Quantities(s.lines.rows, b))
    case _ => None
  }

  /** Requests with line ids replaced by the product rows they stand for in the user's basket. */
  datatype AbsRequest =
    | AbsView
    | AbsAdd(info: Option<int>, quantity: Option<int>)
    | AbsChange(unset: bool, row: Option<Id>, newQuantity: Option<int>)
    | AbsDrop(unset: bool, row: Option<Id>, success: int)
    | AbsBatch(unset: bool, rows: set<Id>)
    | AbsClear
    | AbsConfirm(confirmed: bool)
    | AbsContact(accepted: bool)

  datatype AbsHandled = AbsHandled(content: Content, response: Response)

  // ---------- The simple cart ----------

  ghost function AbsAddTo(infos: map<Id, Info>, m: map<Id, int>, info: Option<int>, quantity: Option<int>): AbsHandled {
    if Unset(info) || Unset(quantity) then AbsHandled(Some(m), Status(400))
    else if info.value !in infos then AbsHandled(Some(m), Status(404))
    else
      var stock := infos[info.value].quantity;
      var total := quantity.value + if info.value in m then m[info.value] else 0;
      if quantity.value > stock || total > stock then AbsHandled(Some(m), Status(400))
      else if total < 0 then AbsHandled(Some(m), Status(500))
      else AbsHandled(Some(m[info.value := total]), Status(201))
  }

  ghost function AbsChangeIn(infos: map<Id, Info>, m: map<Id, int>, unset: bool, row: Option<Id>, quantity: Option<int>): AbsHandled {
    if unset || quantity.None? then AbsHandled(Some(m), Status(400))
    else if row.None? || row.value !in m then AbsHandled(Some(m), Status(404))
    else if row.value !in infos then AbsHandled(Some(m), Status(500))
    else if quantity.value > infos[row.value].quantity then AbsHandled(Some(m), Status(400))
    else if quantity.value <= 0 then AbsHandled(Some(m - {row.value}), Status(200))
    else AbsHandled(Some(m[row.value := quantity.value]), Status(200))
  }

  ghost function AbsHandle(infos: map<Id, Info>, content: Content, r: AbsRequest): AbsHandled {
    var held := if content.Some? then content.value else map[];
    match r
    case AbsView => AbsHandled(Some(held), Response(200, 0, held))
    case AbsAdd(info, quantity) => AbsAddTo(infos, held, info, quantity)
    case AbsContact(accepted) => AbsHandled(content, Status(if accepted then 201 else 400))
    case AbsConfirm(accepted) => if accepted then AbsHandled(None, Status(200)) else AbsHandled(content, Status(400))
    case _ => if content.None? then AbsHandled(None, Status(404)) else AbsInBasket(infos, content.value, r)
  }

  ghost function AbsInBasket(infos: map<Id, Info>, m: map<Id, int>, r: AbsRequest): AbsHandled {
    match r
    case AbsChange(unset, row, quantity) => AbsChangeIn(infos, m, unset, row, quantity)
    case AbsDrop(unset, row, success) =>
      if unset then AbsHandled(Some(m), Status(400))
      else if row.None? || row.value !in m then AbsHandled(Some(m), Status(404))
      else AbsHandled(Some(m - {row.value}), Status(success))
    case AbsBatch(unset, rows) =>
      if unset then AbsHandled(Some(m), Status(400))
      else AbsHandled(Some(m - rows), Response(200, |rows|, map[]))
    case _ => AbsHandled(Some(map[]), Response(200, |m|, map[]))
  }

  // ---------- Abstraction ----------

  ghost function RowOf(s: Sales, user: Id, line: Option<int>): Option<Id> {
    match Lookup(Baskets(s.orders.rows, user))
    case One(b) => if InOrder(s, b, line) then Some(s.lines.rows[line.value].info) else None
    case _ => None
  }

  ghost function RowsOf(s: Sales, user: Id, ids: seq<int>): set<Id> {
    match Lookup(Baskets(s.orders.rows, user))
    case One(b) => set l | l in Named(s.lines.rows, b, ids) :: s.lines.rows[l].info
    case _ => {}
  }

  ghost function Abstract(s: Sales, user: Id, r: Request): AbsRequest {
    match r
    case ViewCart => AbsView
    case AddToCart(info, quantity) => AbsAdd(info, quantity.GetOr(1))
    case ChangeLine(line, quantity) => AbsChange(Unset(line), RowOf(s, user, line), quantity)
    case DropLine(line) => AbsDrop(line.None?, RowOf(s, user, line), 204)
    case RemoveItem(line) => AbsDrop(line.None?, RowOf(s, user, line), 200)
    case BatchDelete(ids) =>
      AbsBatch(ids.None? || ids.value == [], if ids.Some? then RowsOf(s, user, ids.value) else {})
    case ClearCart => AbsClear
    case ConfirmOrder(basket, contact) => AbsConfirm(OwnBasket(s, user, basket) && OwnContact(s, user, contact))
    case AddContact(address) => AbsContact(ValidAddress(address))
  }

  // ---------- Quantities under line changes ----------

  lemma QuantityOf(lines: map<Id, Line>, l: Id)
    requires UniqueLines(lines) && l in lines
    ensures lines[l].info in Quantities(lines, lines[l].order)
    ensures Quantities(lines, lines[l].order)[lines[l].info] == lines[l].quantity
  {
    TheLine(lines, l);
    assert l in LinesOf(lines, lines[l].order);
  }

  lemma HoldsRow(lines: map<Id, Line>, order: Id, i: Id)
    ensures i in Quantities(lines, order) <==> exists l :: l in LinesOf(lines, order) && lines[l].info == i
  {}

  /** Two tables whose lines of an order agree, row by row. */
  lemma SameQuantities(lines: map<Id, Line>, lines': map<Id, Line>, order: Id)
    requires forall l :: l in LinesOf(lines, order) <==> l in LinesOf(lines', order)
    requires forall l :: l in LinesOf(lines, order) ==> lines[l] == lines'[l]
    ensures Quantities(lines, order) == Quantities(lines', order)
  {
    forall i ensures LinesAt(lines, order, i) == LinesAt(lines', order, i) {
      forall l ensures l in LinesAt(lines, order, i) <==> l in LinesAt(lines', order, i) {
        assert l in LinesOf(lines, order) <==> l in LinesOf(lines', order);
      }
      SameSet(LinesAt(lines, order, i), LinesAt(lines', order, i));
    }
    forall i ensures i in Quantities(lines, order) <==> i in Quantities(lines', order) {
      HoldsRow(lines, order, i);
      HoldsRow(lines', order, i);
    }
    forall i | i in Quantities(lines, order) ensures QuantityAt(lines, order, i) == QuantityAt(lines', order, i) {
      if Lookup(LinesAt(lines, order, i)).One? {
        var l := Lookup(LinesAt(lines, order, i)).id;
        assert l in LinesAt(lines, order, i);
        assert l in LinesOf(lines, order);
      }
    }
  }

  lemma InsertedQuantities(lines: map<Id, Line>, l: Id, line: Line)
    requires UniqueLines(lines) && l !in lines && LinesAt(lines, line.order, line.info) == {}
    ensures Quantities(lines[l := line], line.order) == Quantities(lines, line.order)[line.info := line.quantity]
  {
    var lines', o := lines[l := line], line.order;
    assert forall m :: m in lines ==> m !in LinesAt(lines, o, line.info);
    assert UniqueLines(lines');
    QuantitiesMeet(lines, lines', o, line.info);
    QuantityOf(lines', l);
  }

  lemma UpdatedQuantities(lines: map<Id, Line>, l: Id, quantity: int)
    requires UniqueLines(lines) && l in lines
    ensures var line := lines[l];
      Quantities(lines[l := line.(quantity := quantity)], line.order) == Quantities(lines, line.order)[line.info := quantity]
  {
    var lines', o := lines[l := lines[l].(quantity := quantity)], lines[l].order;
    assert UniqueLines(lines');
    QuantitiesMeet(lines, lines', o, lines[l].info);
    QuantityOf(lines', l);
  }

  /** Lines of an order that do not hold row i are the same: so are the quantities but for i. */
  lemma QuantitiesMeet(lines: map<Id, Line>, lines': map<Id, Line>, order: Id, i: Id)
    requires UniqueLines(lines) && UniqueLines(lines')
    requires forall l :: l in lines && lines[l].order == order && lines[l].info != i ==> l in lines' && lines'[l] == lines[l]
    requires forall l :: l in lines' && lines'[l].order == order && lines'[l].info != i ==> l in lines && lines'[l] == lines[l]
    ensures forall j | j != i :: (j in Quantities(lines, order) <==> j in Quantities(lines', order))
    ensures forall j | j != i && j in Quantities(lines, order) :: Quantities(lines, order)[j] == Quantities(lines', order)[j]
  {
    forall j | j != i && j in Quantities(lines, order) ensures j in Quantities(lines', order) && Quantities(lines, order)[j] == Quantities(lines', order)[j] {
      var l :| l in LinesOf(lines, order) && lines[l].info == j;
      QuantityOf(lines, l);
      QuantityOf(lines', l);
    }
    forall j | j != i && j in Quantities(lines', order) ensures j in Quantities(lines, order) {
      var l :| l in LinesOf(lines', order) && lines'[l].info == j;
      QuantityOf(lines, l);
    }
  }

  lemma DeletedQuantities(lines: map<Id, Line>, doomed: set<Id>, order: Id)
    requires UniqueLines(lines) && doomed <= LinesOf(lines, order)
    ensures Quantities(lines - doomed, order) == Quantities(lines, order) - (set l | l in doomed :: lines[l].info)
  {
    var lines', gone := lines - doomed, set l | l in doomed :: lines[l].info;
    assert UniqueLines(lines');
    var left, right := Quantities(lines', order), Quantities(lines, order) - gone;
    forall i | i in left ensures i in right && left[i] == right[i] {
      var l :| l in LinesOf(lines', order) && lines'[l].info == i;
      assert l in LinesOf(lines, order);
      QuantityOf(lines, l);
      QuantityOf(lines', l);
      assert i !in gone;
    }
    forall i | i in right ensures i in left {
      var l :| l in LinesOf(lines, order) && lines[l].info == i;
      assert l in LinesOf(lines', order);
    }
  }

  /** Distinct lines of one order hold distinct rows, so that counting either is the same. */
  lemma {:induction false} CountRows(lines: map<Id, Line>, some: set<Id>, order: Id)
    requires UniqueLines(lines) && some <= LinesOf(lines, order)
    ensures |set l | l in some :: lines[l].info| == |some|
    decreases |some|
  {
    var rows := set l | l in some :: lines[l].info;
    if some != {} {
      var l := Any(some);
      var rest := some - {l};
      var rows' := set m | m in rest :: lines[m].info;
      CountRows(lines, rest, order);
      assert lines[l].info !in rows';
      assert rows == rows' + {lines[l].info};
    }
  }

  // ---------- Endpoint by endpoint ----------

  lemma RowHeld(s: Sales, b: Id, line: Option<int>)
    requires ValidSales(s) && InOrder(s, b, line)
    ensures s.lines.rows[line.value].info in Quantities(s.lines.rows, b)
  {
    QuantityOf(s.lines.rows, line.value);
  }

  lemma AddRefines(infos: map<Id, Info>, s: Sales, b: Id, info: Option<int>, quantity: Option<int>)
    requires ValidSales(s)
    ensures var h, a := Add(infos, s, b, info, quantity), AbsAddTo(infos, Quantities(s.lines.rows, b), info, quantity);
      Some(Quantities(h.sales.lines.rows, b)) == a.content && h.response == a.response && h.sales.orders == s.orders
  {
    var lines := s.lines.rows;
    if !Unset(info) {
      OneLine(lines, b, info.value);
      assert forall l :: l in LinesOf(lines, b) && lines[l].info == info.value ==> l in LinesAt(lines, b, info.value);
      match Lookup(LinesAt(lines, b, info.value))
      case One(l) =>
        assert l in LinesAt(lines, b, info.value);
        QuantityOf(lines, l);
        UpdatedQuantities(lines, l, lines[l].quantity + if quantity.Some? then quantity.value else 0);
      case NotFound =>
        assert info.value !in Quantities(lines, b);
        InsertedQuantities(lines, s.lines.next, Line(b, info.value, if quantity.Some? then quantity.value else 0));
      case _ =>
    }
  }

  lemma ChangeRefines(infos: map<Id, Info>, s: Sales, b: Id, line: Option<int>, quantity: Option<int>)
    requires ValidSales(s)
    ensures var row := if InOrder(s, b, line) then Some(s.lines.rows[line.value].info) else None;
      var h, a := Change(infos, s, b, line, quantity), AbsChangeIn(infos, Quantities(s.lines.rows, b), Unset(line), row, quantity);
      Some(Quantities(h.sales.lines.rows, b)) == a.content && h.response == a.response && h.sales.orders == s.orders
  {
    if InOrder(s, b, line) {
      RowHeld(s, b, line);
      DeletedLine(s.lines.rows, line.value);
      if quantity.Some? {
        UpdatedQuantities(s.lines.rows, line.value, quantity.value);
      }
    }
  }

  lemma DeletedLine(lines: map<Id, Line>, l: Id)
    requires UniqueLines(lines) && l in lines
    ensures Quantities(lines - {l}, lines[l].order) == Quantities(lines, lines[l].order) - {lines[l].info}
  {
    DeletedQuantities(lines, {l}, lines[l].order);
    assert (set m | m in {l} :: lines[m].info) == {lines[l].info};
  }

  lemma DropRefines(infos: map<Id, Info>, s: Sales, b: Id, line: Option<int>, success: int)
    requires ValidSales(s)
    ensures var row := if InOrder(s, b, line) then Some(s.lines.rows[line.value].info) else None;
      var h, a := Drop(s, b, line, success), AbsInBasket(infos, Quantities(s.lines.rows, b), AbsDrop(line.None?, row, success));
      Some(Quantities(h.sales.lines.rows, b)) == a.content && h.response == a.response && h.sales.orders == s.orders
  {
    if InOrder(s, b, line) {
      RowHeld(s, b, line);
      DeletedLine(s.lines.rows, line.value);
    }
  }

  lemma BatchRefines(infos: map<Id, Info>, s: Sales, b: Id, ids: Option<seq<int>>)
    requires ValidSales(s)
    ensures var rows := if ids.Some? then set l | l in Named(s.lines.rows, b, ids.value) :: s.lines.rows[l].info else {};
      var h, a := Batch(s, b, ids), AbsInBasket(infos, Quantities(s.lines.rows, b), AbsBatch(ids.None? || ids.value == [], rows));
      Some(Quantities(h.sales.lines.rows, b)) == a.content && h.response == a.response && h.sales.orders == s.orders
  {
    if ids.Some? {
      DeletedQuantities(s.lines.rows, Named(s.lines.rows, b, ids.value), b);
      CountRows(s.lines.rows, Named(s.lines.rows, b, ids.value), b);
    }
  }

  lemma ClearRefines(infos: map<Id, Info>, s: Sales, b: Id)
    requires ValidSales(s)
    ensures var h, a := Clear(s, b), AbsInBasket(infos, Quantities(s.lines.rows, b), AbsClear);
      Some(Quantities(h.sales.lines.rows, b)) == a.content && h.response == a.response && h.sales.orders == s.orders
  {
    var lines, all := s.lines.rows, LinesOf(s.lines.rows, b);
    DeletedQuantities(lines, all, b);
    CountRows(lines, all, b);
    var rows := set l | l in all :: lines[l].info;
    assert Quantities(lines, b).Keys == rows;
    assert Quantities(lines - all, b) == map[];
  }

  // ---------- Main result ----------

  lemma FreshBasketEmpty(s: Sales, user: Id)
    requires ValidSales(s)
    ensures Quantities(NewBasket(s, user).lines.rows, s.orders.next) == map[]
  {
    Nothing(LinesOf(s.lines.rows, s.orders.next));
  }

  lemma InBasketRefines(infos: map<Id, Info>, s: Sales, user: Id, r: Request)
    requires ValidSales(s) && !r.ViewCart? && !r.AddToCart? && !r.ConfirmOrder? && !r.AddContact?
    ensures var h, a := InBasket(infos, s, user, r), AbsHandle(infos, ContentOf(s, user), Abstract(s, user, r));
      ContentOf(h.sales, user) == a.content && h.response == a.response
  {
    OneBasket(s, user);
    if Lookup(Baskets(s.orders.rows, user)).One? {
      var b := Lookup(Baskets(s.orders.rows, user)).id;
      match r
      case ChangeLine(line, quantity) => ChangeRefines(infos, s, b, line, quantity);
      case DropLine(line) => DropRefines(infos, s, b, line, 204);
      case RemoveItem(line) => DropRefines(infos, s, b, line, 200);
      case BatchDelete(ids) => BatchRefines(infos, s, b, ids);
      case _ => ClearRefines(infos, s, b);
    }
  }

  lemma InOpenedBasketRefines(infos: map<Id, Info>, s: Sales, user: Id, r: Request)
    requires ValidSales(s) && (r.ViewCart? || r.AddToCart?)
    ensures var h, a := InOpenedBasket(infos, s, user, r), AbsHandle(infos, ContentOf(s, user), Abstract(s, user, r));
      ContentOf(h.sales, user) == a.content && h.response == a.response
  {
    OneBasket(s, user);
    match Lookup(Baskets(s.orders.rows, user))
    case One(b) =>
      if r.AddToCart? { AddRefines(infos, s, b, r.info, r.quantity.GetOr(1)); }
    case NotFound =>
      var t, b := NewBasket(s, user), s.orders.next;
      NewBasketKeeps(s, user);
      FreshBasketEmpty(s, user);
      assert b in Baskets(t.orders.rows, user);
      TheBasket(t, user, b);
      if r.AddToCart? { AddRefines(infos, t, b, r.info, r.quantity.GetOr(1)); }
    case _ =>
  }

  lemma ConfirmRefines(infos: map<Id, Info>, s: Sales, user: Id, r: Request)
    requires ValidSales(s) && r.ConfirmOrder?
    ensures var h, a := Handle(infos, s, user, r), AbsHandle(infos, ContentOf(s, user), Abstract(s, user, r));
      ContentOf(h.sales, user) == a.content && h.response == a.response
  {
    if OwnBasket(s, user, r.basket) && OwnContact(s, user, r.contact) {
      var b := r.basket.value;
      assert b in Baskets(s.orders.rows, user);
      TheBasket(s, user, b);
      forall o ensures o !in Baskets(Confirm(s, user, r.basket, r.contact).sales.orders.rows, user) {
        assert o in Baskets(s.orders.rows, user) ==> o == b;
      }
      Nothing(Baskets(Confirm(s, user, r.basket, r.contact).sales.orders.rows, user));
    }
  }

  /** Every request answers and acts as the simple cart does. */
  lemma CartRefines(infos: map<Id, Info>, s: Sales, user: Id, r: Request)
    requires ValidSales(s)
    ensures var h, a := Handle(infos, s, user, r), AbsHandle(infos, ContentOf(s, user), Abstract(s, user, r));
      ContentOf(h.sales, user) == a.content && h.response == a.response
  {
    match r
    case ViewCart => InOpenedBasketRefines(infos, s, user, r);
    case AddToCart(_, _) => InOpenedBasketRefines(infos, s, user, r);
    case ConfirmOrder(_, _) => ConfirmRefines(infos, s, user, r);
    case AddContact(_) =>
    case _ => InBasketRefines(infos, s, user, r);
  }
}
