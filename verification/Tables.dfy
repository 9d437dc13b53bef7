/** The relational tables, the invariants the code relies on, and the ones only the schema declares. */
module Tables {
  import opened Prelude

  datatype Shop = Shop(name: string, owner: Option<Id>)
  datatype Category = Category(name: string)
  datatype Product = Product(name: string, category: Id)
  datatype Info = Info(ext: int, shop: Id, product: Id, model: string, price: int, rrc: int, quantity: int)
  datatype Parameter = Parameter(name: string)
  datatype ParamValue = ParamValue(info: Id, parameter: Id, text: string)
  datatype Contact = Contact(user: Id)
  datatype OrderState = Basket | Confirmed
  datatype Order = Order(user: Id, state: OrderState, contact: Option<Id>)
  datatype Line = Line(order: Id, info: Id, quantity: int)

  /** What the price-list importers write. */
  datatype Catalog = Catalog(
    shops: Table<Shop>,
    categories: Table<Category>,
    links: set<(Id, Id)>,
    products: Table<Product>,
    infos: Table<Info>,
    parameters: Table<Parameter>,
    values: Table<ParamValue>)

  /** What the cart and order endpoints write. */
  datatype Sales = Sales(contacts: Table<Contact>, orders: Table<Order>, lines: Table<Line>)

  const EMPTY_CATALOG := Catalog(EmptyTable(), EmptyTable(), {}, EmptyTable(), EmptyTable(), EmptyTable(), EmptyTable())

  const EMPTY_SALES := Sales(EmptyTable(), EmptyTable(), EmptyTable())

  // ---------- Filters ----------

  function ShopsNamed(rows: map<Id, Shop>, name: string): set<Id> {
    set i | i in rows && rows[i].name == name
  }

  function ShopsOwnedBy(rows: map<Id, Shop>, user: Id): set<Id> {
    set i | i in rows && rows[i].owner == Some(user)
  }

  function ProductsNamed(rows: map<Id, Product>, name: string): set<Id> {
    set i | i in rows && rows[i].name == name
  }

  function InfosAt(rows: map<Id, Info>, shop: Id, ext: int): set<Id> {
    set i | i in rows && rows[i].shop == shop && rows[i].ext == ext
  }

  function InfosOf(rows: map<Id, Info>, shop: Id): set<Id> {
    set i | i in rows && rows[i].shop == shop
  }

  function ParametersNamed(rows: map<Id, Parameter>, name: string): set<Id> {
    set i | i in rows && rows[i].name == name
  }

  function ValuesAt(rows: map<Id, ParamValue>, info: Id, parameter: Id): set<Id> {
    set v | v in rows && rows[v].info == info && rows[v].parameter == parameter
  }

  function Baskets(rows: map<Id, Order>, user: Id): set<Id> {
    set o | o in rows && rows[o].user == user && rows[o].state == Basket
  }

  function LinesOf(rows: map<Id, Line>, order: Id): set<Id> {
    set l | l in rows && rows[l].order == order
  }

  function LinesAt(rows: map<Id, Line>, order: Id, info: Id): set<Id> {
    set l | l in rows && rows[l].order == order && rows[l].info == info
  }

  // ---------- Invariants ----------

  ghost predicate FreshCatalog(c: Catalog) {
    && c.shops.Fresh() && c.categories.Fresh() && c.products.Fresh()
    && c.infos.Fresh() && c.parameters.Fresh() && c.values.Fresh()
  }

  /** No row of the catalogue refers to a row that does not exist. */
  ghost predicate NoDangling(c: Catalog) {
    && (forall p :: p in c.products.rows ==> c.products.rows[p].category in c.categories.rows)
    && (forall i :: i in c.infos.rows ==>
          c.infos.rows[i].product in c.products.rows && c.infos.rows[i].shop in c.shops.rows)
    && (forall v :: v in c.values.rows ==>
          c.values.rows[v].info in c.infos.rows && c.values.rows[v].parameter in c.parameters.rows)
    && (forall k :: k in c.links ==> k.0 in c.categories.rows && k.1 in c.shops.rows)
  }

  ghost predicate OneRowPerOffer(c: Catalog) {
    forall i, j |
      i in c.infos.rows && j in c.infos.rows && c.infos.rows[i].shop == c.infos.rows[j].shop &&
      c.infos.rows[i].ext == c.infos.rows[j].ext ::
      i == j
  }

  ghost predicate UniqueParameters(c: Catalog) {
    forall i, j |
      i in c.parameters.rows && j in c.parameters.rows &&
      c.parameters.rows[i].name == c.parameters.rows[j].name ::
      i == j
  }

  ghost predicate OneValuePerParameter(c: Catalog) {
    forall v, w |
      v in c.values.rows && w in c.values.rows &&
      c.values.rows[v].info == c.values.rows[w].info &&
      c.values.rows[v].parameter == c.values.rows[w].parameter ::
      v == w
  }

  ghost predicate UniqueProducts(c: Catalog) {
    forall i, j |
      i in c.products.rows && j in c.products.rows &&
      c.products.rows[i].name == c.products.rows[j].name ::
      i == j
  }

  ghost predicate UniqueShops(c: Catalog) {
    forall i, j |
      i in c.shops.rows && j in c.shops.rows &&
      c.shops.rows[i].name == c.shops.rows[j].name ::
      i == j
  }

  ghost predicate UniqueOwners(c: Catalog) {
    forall i, j |
      i in c.shops.rows && j in c.shops.rows && c.shops.rows[i].owner.Some? &&
      c.shops.rows[i].owner == c.shops.rows[j].owner ::
      i == j
  }

  ghost predicate NonNegative(c: Catalog) {
    forall i :: i in c.infos.rows ==>
      var r := c.infos.rows[i]; 0 < i && 0 <= r.ext && 0 <= r.price && 0 <= r.rrc && 0 <= r.quantity
  }

  /** The part of the invariant that reading a shop's price list depends on. */
  ghost predicate Core(c: Catalog) {
    FreshCatalog(c) && NoDangling(c) && OneRowPerOffer(c) && UniqueParameters(c) && OneValuePerParameter(c)
  }

  ghost predicate ValidCatalog(c: Catalog) {
    Core(c) && UniqueProducts(c) && UniqueShops(c) && UniqueOwners(c) && NonNegative(c)
  }

  ghost predicate ValidSales(s: Sales) {
    && s.contacts.Fresh() && s.orders.Fresh() && s.lines.Fresh()
    && (forall l :: l in s.lines.rows ==> 0 < l && s.lines.rows[l].order in s.orders.rows && 0 <= s.lines.rows[l].quantity)
    && (forall l, m |
      l in s.lines.rows && m in s.lines.rows &&
      s.lines.rows[l].order == s.lines.rows[m].order &&
      s.lines.rows[l].info == s.lines.rows[m].info ::
      l == m)
    && (forall o, p |
      o in s.orders.rows && p in s.orders.rows &&
      s.orders.rows[o].state == Basket && s.orders.rows[p].state == Basket &&
      s.orders.rows[o].user == s.orders.rows[p].user ::
      o == p)
    && (forall o :: o in s.orders.rows && s.orders.rows[o].state == Confirmed ==> s.orders.rows[o].contact.Some?)
    && (forall o :: o in s.orders.rows && s.orders.rows[o].contact.Some? ==>
          var k := s.orders.rows[o].contact.value;
          k in s.contacts.rows && s.contacts.rows[k].user == s.orders.rows[o].user)
  }

  /** Every order line refers to an existing product row. */
  ghost predicate LinesListed(c: Catalog, s: Sales) {
    forall l :: l in s.lines.rows ==> s.lines.rows[l].info in c.infos.rows
  }
}
