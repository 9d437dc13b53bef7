/**
 The cart and order endpoints, one atomic request each: the rows they leave and the status they answer.
 An uncaught exception answers 500; what was written before it stays written.
 */
module Cart {
  import opened Prelude
  import opened Tables

  datatype Request =
    | ViewCart
    | AddToCart(info: Option<int>, quantity: Field<int>)
    | ChangeLine(line: Option<int>, newQuantity: Option<int>)
    | DropLine(line: Option<int>)
    | RemoveItem(line: Option<int>)
    | BatchDelete(lines: Option<seq<int>>)
    | ClearCart
    | ConfirmOrder(basket: Option<int>, contact: Option<int>)
    | AddContact(address: Address)

  /** The body of POST contacts/. */
  datatype Address = Address(
    city: Field<string>,
    street: Field<string>,
    phone: Field<string>,
    house: Field<string>,
    structure: Field<string>,
    building: Field<string>,
    apartment: Field<string>)

  predicate IsSpace(c: char) {
    c == ' ' || '\t' <= c <= '\r' || 28 <= c as int <= 31
  }

  /** A required text field: given, not null and, once trimmed, not empty. */
  predicate Filled(f: Field<string>) {
    f.Given? && exists k :: 0 <= k < |f.value| && !IsSpace(f.value[k])
  }

  /** City, street and phone are required; the other parts may be absent or blank, but not null. */
  predicate ValidAddress(a: Address) {
    && Filled(a.city) && Filled(a.street) && Filled(a.phone)
    && a.house != Null && a.structure != Null && a.building != Null && a.apartment != Null
  }

  /** Status code, number of deleted lines, and (for ViewCart) quantities by product row. */
  datatype Response = Response(status: int, deleted: nat, items: map<Id, int>)

  datatype Handled = Handled(sales: Sales, response: Response)

  function Status(code: int): Response {
    Response(code, 0, map[])
  }

  ghost function QuantityAt(lines: map<Id, Line>, order: Id, info: Id): int {
    match Lookup(LinesAt(lines, order, info))
    case One(l) => lines[l].quantity
    case _ => 0
  }

  /** What an order holds, without line ids: product row to quantity. */
  ghost function Quantities(lines: map<Id, Line>, order: Id): map<Id, int> {
    var rows := set l | l in LinesOf(lines, order) :: lines[l].info;
    map i | i in rows :: QuantityAt(lines, order, i)
  }

  function Unset(id: Option<int>): bool {
    id.None? || id.value == 0
  }

  function Insert(s: Sales, order: Id, info: Id, quantity: int): Sales {
    s.(lines := s.lines.Insert(Line(order, info, quantity)))
  }

  function Requantify(s: Sales, line: Id, quantity: int): Sales
    requires line in s.lines.rows
  {
    s.(lines := s.lines.Update(line, s.lines.rows[line].(quantity := quantity)))
  }

  function Remove(s: Sales, lines: set<Id>): Sales {
    s.(lines := s.lines.Delete(lines))
  }

  function NewBasket(s: Sales, user: Id): Sales {
    s.(orders := s.orders.Insert(Order(user, Basket, None)))
  }

  ghost predicate InOrder(s: Sales, order: Id, line: Option<int>) {
    line.Some? && line.value in LinesOf(s.lines.rows, order)
  }

  // ---------- Endpoints ----------

  /** POST basket/, once the basket is there: stock is checked before and after adding up, never reserved. */
  ghost function Add(infos: map<Id, Info>, s: Sales, basket: Id, info: Option<int>, quantity: Option<int>): Handled {
    if Unset(info) || Unset(quantity) then Handled(s, Status(400))
    else if info.value !in infos then Handled(s, Status(404))
    else if quantity.value > infos[info.value].quantity then Handled(s, Status(400))
    else match Lookup(LinesAt(s.lines.rows, basket, info.value))
      case Multiple => Handled(s, Status(500))
      case NotFound =>
        if quantity.value < 0 then Handled(s, Status(500))
        else Handled(Insert(s, basket, info.value, quantity.value), Status(201))
      case One(l) =>
        var total := s.lines.rows[l].quantity + quantity.value;
        if total > infos[info.value].quantity then Handled(s, Status(400))
        else if total < 0 then Handled(s, Status(500))
        else Handled(Requantify(s, l, total), Status(201))
  }

  /** PUT basket/ */
  ghost function Change(infos: map<Id, Info>, s: Sales, basket: Id, line: Option<int>, quantity: Option<int>): Handled {
    if Unset(line) || quantity.None? then Handled(s, Status(400))
    else if !InOrder(s, basket, line) then Handled(s, Status(404))
    else
      var info := s.lines.rows[line.value].info;
      if info !in infos then Handled(s, Status(500))
      else if quantity.value > infos[info].quantity then Handled(s, Status(400))
      else if quantity.value <= 0 then Handled(Remove(s, {line.value}), Status(200))
      else Handled(Requantify(s, line.value, quantity.value), Status(200))
  }

  /** DELETE basket/ and DELETE cart/delete/ differ in the status of success only. */
  ghost function Drop(s: Sales, basket: Id, line: Option<int>, success: int): Handled {
    if line.None? then Handled(s, Status(400))
    else if !InOrder(s, basket, line) then Handled(s, Status(404))
    else Handled(Remove(s, {line.value}), Status(success))
  }

  /** The lines of an order that a list of ids names. */
  function Named(lines: map<Id, Line>, order: Id, ids: seq<int>): set<Id> {
    set l | l in LinesOf(lines, order) && l in ids
  }

  /** POST cart/delete-batch/ */
  ghost function Batch(s: Sales, basket: Id, ids: Option<seq<int>>): Handled {
    if ids.None? || ids.value == [] then Handled(s, Status(400))
    else
      var doomed := Named(s.lines.rows, basket, ids.value);
      Handled(Remove(s, doomed), Response(200, |doomed|, map[]))
  }

  ghost function Clear(s: Sales, basket: Id): Handled {
    var doomed := LinesOf(s.lines.rows, basket);
    Handled(Remove(s, doomed), Response(200, |doomed|, map[]))
  }

  ghost predicate OwnBasket(s: Sales, user: Id, id: Option<int>) {
    id.Some? && id.value in s.orders.rows && s.orders.rows[id.value].user == user && s.orders.rows[id.value].state == Basket
  }

  ghost predicate OwnContact(s: Sales, user: Id, id: Option<int>) {
    id.Some? && id.value in s.contacts.rows && s.contacts.rows[id.value].user == user
  }

  /** POST orders/confirm/: both ids are validated against the user, then the basket becomes an order. */
  ghost function Confirm(s: Sales, user: Id, basket: Option<int>, contact: Option<int>): Handled {
    if OwnBasket(s, user, basket) && OwnContact(s, user, contact) then
      Handled(s.(orders := s.orders.Update(basket.value, Order(user, Confirmed, contact))), Status(200))
    else Handled(s, Status(400))
  }

  /** POST contacts/ */
  function Register(s: Sales, user: Id, address: Address): Handled {
    if ValidAddress(address) then Handled(s.(contacts := s.contacts.Insert(Contact(user))), Status(201))
    else Handled(s, Status(400))
  }

  /** get_object_or_404(Order, user, state='basket') */
  ghost function InBasket(infos: map<Id, Info>, s: Sales, user: Id, r: Request): Handled {
    match Lookup(Baskets(s.orders.rows, user))
    case NotFound => Handled(s, Status(404))
    case Multiple => Handled(s, Status(500))
    case One(b) =>
      match r
      case ChangeLine(line, quantity) => Change(infos, s, b, line, quantity)
      case DropLine(line) => Drop(s, b, line, 204)
      case RemoveItem(line) => Drop(s, b, line, 200)
      case BatchDelete(ids) => Batch(s, b, ids)
      case _ => Clear(s, b)
  }

  /** Order.objects.get_or_create(user, state='basket') */
  ghost function InOpenedBasket(infos: map<Id, Info>, s: Sales, user: Id, r: Request): Handled
    requires r.ViewCart? || r.AddToCart?
  {
    match Lookup(Baskets(s.orders.rows, user))
    case Multiple => Handled(s, Status(500))
    case One(b) => Opened(infos, s, b, r)
    case NotFound => Opened(infos, NewBasket(s, user), s.orders.next, r)
  }

  ghost function Opened(infos: map<Id, Info>, s: Sales, basket: Id, r: Request): Handled
    requires r.ViewCart? || r.AddToCart?
  {
    match r
    case AddToCart(info, quantity) => Add(infos, s, basket, info, quantity.GetOr(1))
    case _ => Handled(s, Response(200, 0, Quantities(s.lines.rows, basket)))
  }

  ghost function Handle(infos: map<Id, Info>, s: Sales, user: Id, r: Request): Handled {
    match r
    case ViewCart => InOpenedBasket(infos, s, user, r)
    case AddToCart(_, _) => InOpenedBasket(infos, s, user, r)
    case ConfirmOrder(basket, contact) => Confirm(s, user, basket, contact)
    case AddContact(address) => Register(s, user, address)
    case _ => InBasket(infos, s, user, r)
  }

  // ---------- Lookups in valid sales ----------

  lemma OneBasket(s: Sales, user: Id)
    requires ValidSales(s)
    ensures !Lookup(Baskets(s.orders.rows, user)).Multiple?
  {
    if Lookup(Baskets(s.orders.rows, user)).Multiple? {
      var i, j := Ambiguous(Baskets(s.orders.rows, user));
    }
  }

  lemma TheBasket(s: Sales, user: Id, b: Id)
    requires ValidSales(s) && b in Baskets(s.orders.rows, user)
    ensures Lookup(Baskets(s.orders.rows, user)) == One(b)
  {
    Singleton(Baskets(s.orders.rows, user), b);
  }

  ghost predicate UniqueLines(lines: map<Id, Line>) {
    forall l, m |
      l in lines && m in lines && lines[l].order == lines[m].order && lines[l].info == lines[m].info ::
      l == m
  }

  lemma OneLine(lines: map<Id, Line>, order: Id, info: Id)
    requires UniqueLines(lines)
    ensures !Lookup(LinesAt(lines, order, info)).Multiple?
  {
    if Lookup(LinesAt(lines, order, info)).Multiple? {
      var i, j := Ambiguous(LinesAt(lines, order, info));
    }
  }

  lemma TheLine(lines: map<Id, Line>, l: Id)
    requires UniqueLines(lines) && l in lines
    ensures Lookup(LinesAt(lines, lines[l].order, lines[l].info)) == One(l)
  {
    Singleton(LinesAt(lines, lines[l].order, lines[l].info), l);
  }

  // ---------- Every request keeps the sales valid ----------

  lemma HandleKeeps(infos: map<Id, Info>, s: Sales, user: Id, r: Request)
    requires ValidSales(s) && forall l :: l in s.lines.rows ==> s.lines.rows[l].info in infos
    ensures var t := Handle(infos, s, user, r).sales; ValidSales(t) && forall l :: l in t.lines.rows ==> t.lines.rows[l].info in infos
  {
    match r
    case ConfirmOrder(basket, contact) => ConfirmKeeps(s, user, basket, contact);
    case AddContact(address) => RegisterKeeps(s, user, address);
    case ViewCart => OpenedKeeps(infos, s, user, r);
    case AddToCart(_, _) => OpenedKeeps(infos, s, user, r);
    case _ => InBasketKeeps(infos, s, user, r);
  }

  lemma OpenedKeeps(infos: map<Id, Info>, s: Sales, user: Id, r: Request)
    requires r.ViewCart? || r.AddToCart?
    requires ValidSales(s) && forall l :: l in s.lines.rows ==> s.lines.rows[l].info in infos
    ensures var t := InOpenedBasket(infos, s, user, r).sales; ValidSales(t) && forall l :: l in t.lines.rows ==> t.lines.rows[l].info in infos
  {
    OneBasket(s, user);
    var found := Lookup(Baskets(s.orders.rows, user));
    if found.NotFound? {
      NewBasketKeeps(s, user);
      if r.AddToCart? { AddKeeps(infos, NewBasket(s, user), s.orders.next, r.info, r.quantity.GetOr(1)); }
    } else {
      assert found.id in Baskets(s.orders.rows, user);
      if r.AddToCart? { AddKeeps(infos, s, found.id, r.info, r.quantity.GetOr(1)); }
    }
  }

  lemma InBasketKeeps(infos: map<Id, Info>, s: Sales, user: Id, r: Request)
    requires ValidSales(s) && forall l :: l in s.lines.rows ==> s.lines.rows[l].info in infos
    ensures var t := InBasket(infos, s, user, r).sales; ValidSales(t) && forall l :: l in t.lines.rows ==> t.lines.rows[l].info in infos
  {
    var found := Lookup(Baskets(s.orders.rows, user));
    if found.One? {
      match r
      case ChangeLine(line, quantity) => ChangeKeeps(infos, s, found.id, line, quantity);
      case DropLine(line) => if line.Some? { RemoveKeeps(s, {line.value}); }
      case RemoveItem(line) => if line.Some? { RemoveKeeps(s, {line.value}); }
      case BatchDelete(ids) => if ids.Some? { RemoveKeeps(s, Named(s.lines.rows, found.id, ids.value)); }
      case _ => RemoveKeeps(s, LinesOf(s.lines.rows, found.id));
    }
  }

  lemma ConfirmKeeps(s: Sales, user: Id, basket: Option<int>, contact: Option<int>)
    requires ValidSales(s)
    ensures var t := Confirm(s, user, basket, contact).sales; ValidSales(t) && t.lines == s.lines
  {}

  lemma RegisterKeeps(s: Sales, user: Id, address: Address)
    requires ValidSales(s)
    ensures var t := Register(s, user, address).sales; ValidSales(t) && t.lines == s.lines
  {}

  lemma RemoveKeeps(s: Sales, doomed: set<Id>)
    requires ValidSales(s)
    ensures ValidSales(Remove(s, doomed))
  {}

  lemma NewBasketKeeps(s: Sales, user: Id)
    requires ValidSales(s) && Baskets(s.orders.rows, user) == {}
    ensures ValidSales(NewBasket(s, user))
  {
    assert forall o :: o in s.orders.rows ==> o !in Baskets(s.orders.rows, user);
  }

  /** A new line, for a row that the order does not hold yet. */
  lemma InsertKeeps(s: Sales, basket: Id, info: Id, quantity: int)
    requires ValidSales(s) && basket in s.orders.rows && LinesAt(s.lines.rows, basket, info) == {} && 0 <= quantity
    ensures ValidSales(Insert(s, basket, info, quantity))
  {
    assert forall l :: l in s.lines.rows ==> l !in LinesAt(s.lines.rows, basket, info);
  }

  lemma RequantifyKeeps(s: Sales, l: Id, quantity: int)
    requires ValidSales(s) && l in s.lines.rows && 0 <= quantity
    ensures ValidSales(Requantify(s, l, quantity))
  {}

  lemma AddKeeps(infos: map<Id, Info>, s: Sales, basket: Id, info: Option<int>, quantity: Option<int>)
    requires ValidSales(s) && basket in s.orders.rows && forall l :: l in s.lines.rows ==> s.lines.rows[l].info in infos
    ensures var t := Add(infos, s, basket, info, quantity).sales;
      ValidSales(t) && t.orders == s.orders && forall l :: l in t.lines.rows ==> t.lines.rows[l].info in infos
  {
    if Add(infos, s, basket, info, quantity).response.status == 201 {
      var found := Lookup(LinesAt(s.lines.rows, basket, info.value));
      if found.One? {
        assert found.id in LinesAt(s.lines.rows, basket, info.value);
        RequantifyKeeps(s, found.id, s.lines.rows[found.id].quantity + quantity.value);
      } else {
        InsertKeeps(s, basket, info.value, quantity.value);
      }
    }
  }

  lemma ChangeKeeps(infos: map<Id, Info>, s: Sales, basket: Id, line: Option<int>, quantity: Option<int>)
    requires ValidSales(s) && forall l :: l in s.lines.rows ==> s.lines.rows[l].info in infos
    ensures var t := Change(infos, s, basket, line, quantity).sales;
      ValidSales(t) && forall l :: l in t.lines.rows ==> t.lines.rows[l].info in infos
  {}
}
