/**
 The database primitives the importers are written in: get, create, get_or_create and
 update_or_create, each one atomic, each with its error outcomes.  NOT NULL, CHECK, foreign-key and
 unique violations are all IntegrityError.
 */
module Orm {
  import opened Prelude
  import opened Tables

  datatype Error =
    | IntegrityError
    | DoesNotExist
    | MultipleObjectsReturned
    | KeyError
    | TypeError
    | AttributeError
    | BadFormat

  /** What one primitive leaves behind: the new catalogue and the row's identifier, or an error and no change. */
  datatype Reply = Ok(catalog: Catalog, id: Id) | Err(error: Error)

  ghost function GetOrCreateShop(c: Catalog, name: Option<string>, owner: Option<Id>): Reply {
    if name.None? then Err(IntegrityError)
    else match Lookup(ShopsNamed(c.shops.rows, name.value))
      case One(i) => Ok(c, i)
      case Multiple => Err(MultipleObjectsReturned)
      case NotFound =>
        if owner.Some? && ShopsOwnedBy(c.shops.rows, owner.value) != {} then Err(IntegrityError)
        else Ok(c.(shops := c.shops.Insert(Shop(name.value, owner))), c.shops.next)
  }

  /** Lookup by primary key only; the name is used on creation and never updated. */
  ghost function GetOrCreateCategory(c: Catalog, id: Option<int>, name: Option<string>): Reply {
    if id.Some? && id.value in c.categories.rows then Ok(c, id.value)
    else CreateCategory(c, id, name)
  }

  ghost function CreateCategory(c: Catalog, id: Option<int>, name: Option<string>): Reply {
    if name.None? then Err(IntegrityError)
    else match id
      case None => Ok(c.(categories := c.categories.Insert(Category(name.value))), c.categories.next)
      case Some(i) =>
        if i in c.categories.rows then Err(IntegrityError)
        else Ok(c.(categories := c.categories.InsertAt(i, Category(name.value))), i)
  }

  ghost function GetCategory(c: Catalog, id: Option<int>): Reply {
    if id.Some? && id.value in c.categories.rows then Ok(c, id.value) else Err(DoesNotExist)
  }

  ghost function AddLink(c: Catalog, category: Id, shop: Id): Reply {
    if category in c.categories.rows && shop in c.shops.rows then
      Ok(c.(links := c.links + {(category, shop)}), category)
    else Err(IntegrityError)
  }

  ghost function GetOrCreateProduct(c: Catalog, name: Option<string>, category: Option<int>): Reply {
    if name.None? then Err(IntegrityError)
    else match Lookup(ProductsNamed(c.products.rows, name.value))
      case One(i) => Ok(c, i)
      case Multiple => Err(MultipleObjectsReturned)
      case NotFound => CreateProduct(c, name.value, category)
  }

  ghost function CreateProduct(c: Catalog, name: string, category: Option<int>): Reply {
    if category.None? || category.value !in c.categories.rows then Err(IntegrityError)
    else Ok(c.(products := c.products.Insert(Product(name, category.value))), c.products.next)
  }

  /** PositiveIntegerField and NOT NULL, for the four numeric columns of a product row. */
  predicate Storable(row: Info) {
    0 <= row.ext && 0 <= row.price && 0 <= row.rrc && 0 <= row.quantity
  }

  ghost predicate Referable(c: Catalog, row: Info) {
    row.product in c.products.rows && row.shop in c.shops.rows
  }

  /** update_or_create keyed by (external id, shop), every other column given. */
  ghost function SaveOffer(c: Catalog, row: Info): Reply {
    match Lookup(InfosAt(c.infos.rows, row.shop, row.ext))
    case Multiple => Err(MultipleObjectsReturned)
    case One(i) =>
      if Storable(row) && Referable(c, row) then Ok(c.(infos := c.infos.Update(i, row)), i) else Err(IntegrityError)
    case NotFound =>
      if Storable(row) && Referable(c, row) then Ok(c.(infos := c.infos.Insert(row)), c.infos.next)
      else Err(IntegrityError)
  }

  /**
   update_or_create keyed by (external id, shop) where only product, quantity and price are given.
   The recommended price is missing, so the create branch always violates NOT NULL.
   */
  ghost function RestockOffer(c: Catalog, shop: Id, product: Id, ext: Option<int>, price: Option<int>, quantity: Option<int>)
    : Reply
  {
    if ext.None? then Err(IntegrityError)
    else match Lookup(InfosAt(c.infos.rows, shop, ext.value))
      case Multiple => Err(MultipleObjectsReturned)
      case NotFound => Err(IntegrityError)
      case One(i) =>
        if price.None? || quantity.None? || price.value < 0 || quantity.value < 0 || product !in c.products.rows then
          Err(IntegrityError)
        else
          var row := c.infos.rows[i].(product := product, price := price.value, quantity := quantity.value);
          Ok(c.(infos := c.infos.Update(i, row)), i)
  }

  ghost function GetOffer(c: Catalog, shop: Id, ext: Option<int>): Reply {
    if ext.None? then Err(DoesNotExist)
    else match Lookup(InfosAt(c.infos.rows, shop, ext.value))
      case One(i) => Ok(c, i)
      case NotFound => Err(DoesNotExist)
      case Multiple => Err(MultipleObjectsReturned)
  }

  ghost function GetOrCreateParameter(c: Catalog, name: string): Reply {
    match Lookup(ParametersNamed(c.parameters.rows, name))
    case One(i) => Ok(c, i)
    case Multiple => Err(MultipleObjectsReturned)
    case NotFound => Ok(c.(parameters := c.parameters.Insert(Parameter(name))), c.parameters.next)
  }

  /** update_or_create keyed by (product row, parameter). */
  ghost function SaveValue(c: Catalog, info: Id, parameter: Id, text: string): Reply {
    match Lookup(ValuesAt(c.values.rows, info, parameter))
    case Multiple => Err(MultipleObjectsReturned)
    case One(v) => Ok(c.(values := c.values.Update(v, ParamValue(info, parameter, text))), v)
    case NotFound => InsertValue(c, info, parameter, text)
  }

  ghost function InsertValue(c: Catalog, info: Id, parameter: Id, text: string): Reply {
    if info in c.infos.rows && parameter in c.parameters.rows then
      Ok(c.(values := c.values.Insert(ParamValue(info, parameter, text))), c.values.next)
    else Err(IntegrityError)
  }

  /** Deleting a shop's product rows cascades to their parameter values ... */
  ghost function ClearShop(c: Catalog, shop: Id): Catalog {
    var doomed := InfosOf(c.infos.rows, shop);
    c.(infos := c.infos.Delete(doomed),
       values := c.values.Delete(set v | v in c.values.rows && c.values.rows[v].info in doomed))
  }

  /** ... and to the order lines that hold them, whatever the state of the order. */
  ghost function DropLines(s: Sales, doomed: set<Id>): Sales {
    s.(lines := s.lines.Delete(set l | l in s.lines.rows && s.lines.rows[l].info in doomed))
  }

  // ---------- Primitives that only the reference importer uses ----------

  ghost function GetOrCreateOwnShop(c: Catalog, name: Option<string>, owner: Id): Reply {
    if name.None? then Err(IntegrityError)
    else match Lookup(ShopsNamed(c.shops.rows, name.value) * ShopsOwnedBy(c.shops.rows, owner))
      case One(i) => Ok(c, i)
      case Multiple => Err(MultipleObjectsReturned)
      case NotFound =>
        if ShopsOwnedBy(c.shops.rows, owner) != {} then Err(IntegrityError)
        else Ok(c.(shops := c.shops.Insert(Shop(name.value, Some(owner)))), c.shops.next)
  }

  /** Lookup by id and name together: a known id under another name cannot be created again. */
  ghost function GetOrCreateExactCategory(c: Catalog, id: Option<int>, name: Option<string>): Reply {
    if id.Some? && name.Some? && id.value in c.categories.rows && c.categories.rows[id.value].name == name.value then
      Ok(c, id.value)
    else CreateCategory(c, id, name)
  }

  /** Lookup by name and category together, so that product names need not stay unique. */
  ghost function GetOrCreateExactProduct(c: Catalog, name: Option<string>, category: Option<int>): Reply {
    if name.None? || category.None? then Err(IntegrityError)
    else match Lookup(set i | i in ProductsNamed(c.products.rows, name.value) && c.products.rows[i].category == category.value)
      case One(i) => Ok(c, i)
      case Multiple => Err(MultipleObjectsReturned)
      case NotFound => CreateProduct(c, name.value, category)
  }

  ghost function CreateOffer(c: Catalog, row: Info): Reply {
    if !Storable(row) || !Referable(c, row) ||
       exists i :: i in InfosAt(c.infos.rows, row.shop, row.ext) && c.infos.rows[i].product == row.product
    then
      Err(IntegrityError)
    else Ok(c.(infos := c.infos.Insert(row)), c.infos.next)
  }

  ghost function CreateValue(c: Catalog, info: Id, parameter: Id, text: Option<string>): Reply {
    if text.None? || ValuesAt(c.values.rows, info, parameter) != {} then Err(IntegrityError)
    else InsertValue(c, info, parameter, text.value)
  }

  // ---------- Lookups are unambiguous ----------

  lemma OneShop(c: Catalog, name: string)
    requires UniqueShops(c)
    ensures !Lookup(ShopsNamed(c.shops.rows, name)).Multiple?
  {
    if Lookup(ShopsNamed(c.shops.rows, name)).Multiple? {
      var i, j := Ambiguous(ShopsNamed(c.shops.rows, name));
    }
  }

  lemma OneProduct(c: Catalog, name: string)
    requires UniqueProducts(c)
    ensures !Lookup(ProductsNamed(c.products.rows, name)).Multiple?
  {
    if Lookup(ProductsNamed(c.products.rows, name)).Multiple? {
      var i, j := Ambiguous(ProductsNamed(c.products.rows, name));
    }
  }

  lemma OneOffer(c: Catalog, shop: Id, ext: int)
    requires OneRowPerOffer(c)
    ensures !Lookup(InfosAt(c.infos.rows, shop, ext)).Multiple?
  {
    if Lookup(InfosAt(c.infos.rows, shop, ext)).Multiple? {
      var i, j := Ambiguous(InfosAt(c.infos.rows, shop, ext));
    }
  }

  lemma OneParameter(c: Catalog, name: string)
    requires UniqueParameters(c)
    ensures !Lookup(ParametersNamed(c.parameters.rows, name)).Multiple?
  {
    if Lookup(ParametersNamed(c.parameters.rows, name)).Multiple? {
      var i, j := Ambiguous(ParametersNamed(c.parameters.rows, name));
    }
  }

  lemma OneValue(c: Catalog, info: Id, parameter: Id)
    requires OneValuePerParameter(c)
    ensures !Lookup(ValuesAt(c.values.rows, info, parameter)).Multiple?
  {
    if Lookup(ValuesAt(c.values.rows, info, parameter)).Multiple? {
      var i, j := Ambiguous(ValuesAt(c.values.rows, info, parameter));
    }
  }

  // ---------- Every primitive keeps the catalogue valid ----------

  /** A change that keeps both invariants: the one the importers maintain and the part every reader needs. */
  ghost predicate Keeps(c: Catalog, d: Catalog) {
    Core(d) && (ValidCatalog(c) ==> ValidCatalog(d))
  }

  lemma ShopKeeps(c: Catalog, name: Option<string>, owner: Option<Id>)
    requires Core(c) && GetOrCreateShop(c, name, owner).Ok?
    ensures Keeps(c, GetOrCreateShop(c, name, owner).catalog)
  {
    var r := GetOrCreateShop(c, name, owner);
    if r.catalog != c {
      assert forall i :: i in c.shops.rows ==> i !in ShopsNamed(c.shops.rows, name.value);
      if owner.Some? {
        assert forall i :: i in c.shops.rows ==> i !in ShopsOwnedBy(c.shops.rows, owner.value);
      }
    }
  }

  lemma CategoryKeeps(c: Catalog, id: Option<int>, name: Option<string>)
    requires Core(c) && CreateCategory(c, id, name).Ok?
    ensures Keeps(c, CreateCategory(c, id, name).catalog)
  {}

  lemma LinkKeeps(c: Catalog, category: Id, shop: Id)
    requires Core(c) && AddLink(c, category, shop).Ok?
    ensures Keeps(c, AddLink(c, category, shop).catalog)
  {}

  lemma ProductKeeps(c: Catalog, name: Option<string>, category: Option<int>)
    requires Core(c) && GetOrCreateProduct(c, name, category).Ok?
    ensures Keeps(c, GetOrCreateProduct(c, name, category).catalog)
  {
    var r := GetOrCreateProduct(c, name, category);
    if r.catalog != c {
      assert forall i :: i in c.products.rows ==> i !in ProductsNamed(c.products.rows, name.value);
    }
  }

  lemma SaveOfferKeeps(c: Catalog, row: Info)
    requires Core(c) && SaveOffer(c, row).Ok?
    ensures Keeps(c, SaveOffer(c, row).catalog)
  {
    var c' := SaveOffer(c, row).catalog;
    assert forall i | i in c.infos.rows && c.infos.rows[i].shop == row.shop && c.infos.rows[i].ext == row.ext ::
        i in InfosAt(c.infos.rows, row.shop, row.ext);
  }

  lemma ParameterKeeps(c: Catalog, name: string)
    requires Core(c) && GetOrCreateParameter(c, name).Ok?
    ensures Keeps(c, GetOrCreateParameter(c, name).catalog)
  {
    var r := GetOrCreateParameter(c, name);
    if r.catalog != c {
      assert forall i :: i in c.parameters.rows ==> i !in ParametersNamed(c.parameters.rows, name);
    }
  }

  lemma SaveValueKeeps(c: Catalog, info: Id, parameter: Id, text: string)
    requires Core(c) && SaveValue(c, info, parameter, text).Ok?
    ensures Keeps(c, SaveValue(c, info, parameter, text).catalog)
  {
    assert forall v | v in c.values.rows && c.values.rows[v].info == info && c.values.rows[v].parameter == parameter ::
        v in ValuesAt(c.values.rows, info, parameter);
  }

  lemma ClearKeeps(c: Catalog, shop: Id)
    requires Core(c)
    ensures Keeps(c, ClearShop(c, shop))
  {}
}
