/**
 The database itself: one table per field, changed in place by the primitives.  Every primitive is
 proved against its specification in module Orm; a failing one leaves every table as it was.
 */
module Store {
  import opened Prelude
  import opened Tables
  import Orm
  import opened Programs

  datatype Outcome = Got(id: Id) | Raised(error: Orm.Error)

  /** A primitive's effect is the specified one. */
  ghost predicate Answers(spec: Orm.Reply, before: Db, after: Db, r: Outcome) {
    match spec
    case Ok(c, id) => r == Got(id) && after == before.(catalog := c)
    case Err(e) => r == Raised(e) && after == before
  }

  /** Fetching the one row among the matching ones. */
  method Fetch<T(==, !new)>(matching: set<T>) returns (r: Found<T>)
    ensures r == Lookup(matching)
  {
    if matching == {} {
      r := NotFound;
    } else {
      var i :| i in matching;
      r := if matching == {i} then One(i) else Multiple;
    }
  }

  class Database {
    var shops: Table<Shop>
    var categories: Table<Category>
    var links: set<(Id, Id)>
    var products: Table<Product>
    var infos: Table<Info>
    var parameters: Table<Parameter>
    var values: Table<ParamValue>
    var contacts: Table<Contact>
    var orders: Table<Order>
    var lines: Table<Line>
    var tasks: Table<Task>

    ghost function Snapshot(): Db
      reads this
    {
      Db(Catalog(shops, categories, links, products, infos, parameters, values), Sales(contacts, orders, lines), tasks)
    }

    constructor ()
      ensures Snapshot() == EMPTY_DB
    {
      shops, categories, links, products := EmptyTable(), EmptyTable(), {}, EmptyTable();
      infos, parameters, values := EmptyTable(), EmptyTable(), EmptyTable();
      contacts, orders, lines, tasks := EmptyTable(), EmptyTable(), EmptyTable(), EmptyTable();
    }

    // ---------- Primitives of both importers ----------

    method GetOrCreateShop(name: Option<string>, owner: Option<Id>) returns (r: Outcome)
      modifies this
      ensures Answers(Orm.GetOrCreateShop(old(Snapshot()).catalog, name, owner), old(Snapshot()), Snapshot(), r)
    {
      if name.None? {
        return Raised(Orm.IntegrityError);
      }
      var found := Fetch(ShopsNamed(shops.rows, name.value));
      match found {
        case One(i) => return Got(i);
        case Multiple => return Raised(Orm.MultipleObjectsReturned);
        case NotFound =>
          if owner.Some? && ShopsOwnedBy(shops.rows, owner.value) != {} {
            return Raised(Orm.IntegrityError);
          }
          r := Got(shops.next);
          shops := shops.Insert(Shop(name.value, owner));
      }
    }

    method CreateCategory(id: Option<int>, name: Option<string>) returns (r: Outcome)
      modifies this
      ensures Answers(Orm.CreateCategory(old(Snapshot()).catalog, id, name), old(Snapshot()), Snapshot(), r)
    {
      if name.None? || (id.Some? && id.value in categories.rows) {
        return Raised(Orm.IntegrityError);
      }
      match id {
        case None =>
          r := Got(categories.next);
          categories := categories.Insert(Category(name.value));
        case Some(i) =>
          r := Got(i);
          categories := categories.InsertAt(i, Category(name.value));
      }
    }

    method GetOrCreateCategory(id: Option<int>, name: Option<string>) returns (r: Outcome)
      modifies this
      ensures Answers(Orm.GetOrCreateCategory(old(Snapshot()).catalog, id, name), old(Snapshot()), Snapshot(), r)
    {
      if id.Some? && id.value in categories.rows {
        return Got(id.value);
      }
      r := CreateCategory(id, name);
    }

    method GetCategory(id: Option<int>) returns (r: Outcome)
      ensures Answers(Orm.GetCategory(Snapshot().catalog, id), Snapshot(), Snapshot(), r)
    {
      r := if id.Some? && id.value in categories.rows then Got(id.value) else Raised(Orm.DoesNotExist);
    }

    /** `if shop not in category.shops.all(): category.shops.add(shop)` */
    method AddLink(category: Id, shop: Id) returns (r: Outcome)
      modifies this
      ensures Answers(Orm.AddLink(old(Snapshot()).catalog, category, shop), old(Snapshot()), Snapshot(), r)
    {
      if category !in categories.rows || shop !in shops.rows {
        return Raised(Orm.IntegrityError);
      }
      if (category, shop) !in links {
        links := links + {(category, shop)};
      } else {
        assert links + {(category, shop)} == links;
      }
      r := Got(category);
    }

    method CreateProduct(name: string, category: Option<int>) returns (r: Outcome)
      modifies this
      ensures Answers(Orm.CreateProduct(old(Snapshot()).catalog, name, category), old(Snapshot()), Snapshot(), r)
    {
      if category.None? || category.value !in categories.rows {
        return Raised(Orm.IntegrityError);
      }
      r := Got(products.next);
      products := products.Insert(Product(name, category.value));
    }

    method GetOrCreateProduct(name: Option<string>, category: Option<int>) returns (r: Outcome)
      modifies this
      ensures Answers(Orm.GetOrCreateProduct(old(Snapshot()).catalog, name, category), old(Snapshot()), Snapshot(), r)
    {
      if name.None? {
        return Raised(Orm.IntegrityError);
      }
      var found := Fetch(ProductsNamed(products.rows, name.value));
      match found {
        case One(i) => return Got(i);
        case Multiple => return Raised(Orm.MultipleObjectsReturned);
        case NotFound => r := CreateProduct(name.value, category);
      }
    }

    /** update_or_create(external_id, shop) with all columns */
    method SaveOffer(row: Info) returns (r: Outcome)
      modifies this
      ensures Answers(Orm.SaveOffer(old(Snapshot()).catalog, row), old(Snapshot()), Snapshot(), r)
    {
      var found := Fetch(InfosAt(infos.rows, row.shop, row.ext));
      if found.Multiple? {
        return Raised(Orm.MultipleObjectsReturned);
      }
      if !Orm.Storable(row) || row.product !in products.rows || row.shop !in shops.rows {
        return Raised(Orm.IntegrityError);
      }
      if found.One? {
        r := Got(found.id);
        infos := infos.Update(found.id, row);
      } else {
        r := Got(infos.next);
        infos := infos.Insert(row);
      }
    }

    /** update_or_create(external_id, shop) with product, quantity and price only */
    method RestockOffer(shop: Id, product: Id, ext: Option<int>, price: Option<int>, quantity: Option<int>) returns (r: Outcome)
      modifies this
      ensures Answers(Orm.RestockOffer(old(Snapshot()).catalog, shop, product, ext, price, quantity), old(Snapshot()), Snapshot(), r)
    {
      if ext.None? {
        return Raised(Orm.IntegrityError);
      }
      var found := Fetch(InfosAt(infos.rows, shop, ext.value));
      match found {
        case Multiple => return Raised(Orm.MultipleObjectsReturned);
        case NotFound => return Raised(Orm.IntegrityError);
        case One(i) =>
          if price.None? || quantity.None? || price.value < 0 || quantity.value < 0 || product !in products.rows {
            return Raised(Orm.IntegrityError);
          }
          assert i in InfosAt(infos.rows, shop, ext.value);
          infos := infos.Update(i, infos.rows[i].(product := product, price := price.value, quantity := quantity.value));
          r := Got(i);
      }
    }

    method GetOffer(shop: Id, ext: Option<int>) returns (r: Outcome)
      ensures Answers(Orm.GetOffer(Snapshot().catalog, shop, ext), Snapshot(), Snapshot(), r)
    {
      if ext.None? {
        return Raised(Orm.DoesNotExist);
      }
      var found := Fetch(InfosAt(infos.rows, shop, ext.value));
      match found {
        case One(i) => r := Got(i);
        case NotFound => r := Raised(Orm.DoesNotExist);
        case Multiple => r := Raised(Orm.MultipleObjectsReturned);
      }
    }

    method GetOrCreateParameter(name: string) returns (r: Outcome)
      modifies this
      ensures Answers(Orm.GetOrCreateParameter(old(Snapshot()).catalog, name), old(Snapshot()), Snapshot(), r)
    {
      var found := Fetch(ParametersNamed(parameters.rows, name));
      match found {
        case One(i) => r := Got(i);
        case Multiple => r := Raised(Orm.MultipleObjectsReturned);
        case NotFound =>
          r := Got(parameters.next);
          parameters := parameters.Insert(Parameter(name));
      }
    }

    method InsertValue(info: Id, parameter: Id, text: string) returns (r: Outcome)
      modifies this
      ensures Answers(Orm.InsertValue(old(Snapshot()).catalog, info, parameter, text), old(Snapshot()), Snapshot(), r)
    {
      if info !in infos.rows || parameter !in parameters.rows {
        return Raised(Orm.IntegrityError);
      }
      r := Got(values.next);
      values := values.Insert(ParamValue(info, parameter, text));
    }

    method SaveValue(info: Id, parameter: Id, text: string) returns (r: Outcome)
      modifies this
      ensures Answers(Orm.SaveValue(old(Snapshot()).catalog, info, parameter, text), old(Snapshot()), Snapshot(), r)
    {
      var found := Fetch(ValuesAt(values.rows, info, parameter));
      match found {
        case Multiple => r := Raised(Orm.MultipleObjectsReturned);
        case NotFound => r := InsertValue(info, parameter, text);
        case One(v) =>
          values := values.Update(v, ParamValue(info, parameter, text));
          r := Got(v);
      }
    }

    /** `ProductInfo.objects.filter(shop_id=...).delete()` with its cascades */
    method DeleteOffers(shop: Id)
      modifies this
      ensures var before, after := old(Snapshot()), Snapshot();
        && after == before.(catalog := Orm.ClearShop(before.catalog, shop),
                            sales := Orm.DropLines(before.sales, InfosOf(before.catalog.infos.rows, shop)))
    {
      var doomed := InfosOf(infos.rows, shop);
      var lostValues := set v | v in values.rows && values.rows[v].info in doomed;
      var lostLines := set l | l in lines.rows && lines.rows[l].info in doomed;
      values := values.Delete(lostValues);
      lines := lines.Delete(lostLines);
      infos := infos.Delete(doomed);
    }

    /** The last lines of `do_import`: flag and counters of the task row. */
    method FinishTask(task: Id, stats: Stats)
      modifies this
      ensures var db := old(Snapshot());
        Snapshot() ==
          if task in db.tasks.rows then
            db.(tasks := db.tasks.Update(task, db.tasks.rows[task].(processed := true, counts := stats)))
          else db
    {
      if task in tasks.rows {
        tasks := tasks.Update(task, tasks.rows[task].(processed := true, counts := stats));
      }
    }

    // ---------- Primitives of the reference importer ----------

    method GetOrCreateOwnShop(name: Option<string>, owner: Id) returns (r: Outcome)
      modifies this
      ensures Answers(Orm.GetOrCreateOwnShop(old(Snapshot()).catalog, name, owner), old(Snapshot()), Snapshot(), r)
    {
      if name.None? {
        return Raised(Orm.IntegrityError);
      }
      var owned := ShopsOwnedBy(shops.rows, owner);
      var found := Fetch(ShopsNamed(shops.rows, name.value) * owned);
      match found {
        case One(i) => return Got(i);
        case Multiple => return Raised(Orm.MultipleObjectsReturned);
        case NotFound =>
          if owned != {} {
            return Raised(Orm.IntegrityError);
          }
          r := Got(shops.next);
          shops := shops.Insert(Shop(name.value, Some(owner)));
      }
    }

    method GetOrCreateExactCategory(id: Option<int>, name: Option<string>) returns (r: Outcome)
      modifies this
      ensures Answers(Orm.GetOrCreateExactCategory(old(Snapshot()).catalog, id, name), old(Snapshot()), Snapshot(), r)
    {
      if id.Some? && name.Some? && id.value in categories.rows && categories.rows[id.value].name == name.value {
        return Got(id.value);
      }
      r := CreateCategory(id, name);
    }

    method GetOrCreateExactProduct(name: Option<string>, category: Option<int>) returns (r: Outcome)
      modifies this
      ensures Answers(Orm.GetOrCreateExactProduct(old(Snapshot()).catalog, name, category), old(Snapshot()), Snapshot(), r)
    {
      if name.None? || category.None? {
        return Raised(Orm.IntegrityError);
      }
      var named := ProductsNamed(products.rows, name.value);
      var found := Fetch(set i | i in named && products.rows[i].category == category.value);
      match found {
        case One(i) => return Got(i);
        case Multiple => return Raised(Orm.MultipleObjectsReturned);
        case NotFound => r := CreateProduct(name.value, category);
      }
    }

    method CreateOffer(row: Info) returns (r: Outcome)
      modifies this
      ensures Answers(Orm.CreateOffer(old(Snapshot()).catalog, row), old(Snapshot()), Snapshot(), r)
    {
      var rivals := InfosAt(infos.rows, row.shop, row.ext);
      if !Orm.Storable(row) || row.product !in products.rows || row.shop !in shops.rows ||
         exists i :: i in rivals && infos.rows[i].product == row.product
      {
        return Raised(Orm.IntegrityError);
      }
      r := Got(infos.next);
      infos := infos.Insert(row);
    }

    method CreateValue(info: Id, parameter: Id, text: Option<string>) returns (r: Outcome)
      modifies this
      ensures Answers(Orm.CreateValue(old(Snapshot()).catalog, info, parameter, text), old(Snapshot()), Snapshot(), r)
    {
      if text.None? || ValuesAt(values.rows, info, parameter) != {} {
        return Raised(Orm.IntegrityError);
      }
      r := InsertValue(info, parameter, text.value);
    }
  }
}
