/**
 What a successful `PartnerUpdate` adds, over the rows of the tables and the field values of the file, for
 every file that it accepts: the shop row with its owner, the links, the categories, the products and the
 product rows; and what a shop that repeats no id then lists.
 */
module PartnerOfFields {
  import opened Prelude
  import opened Tables
  import opened Programs
  import opened PriceView
  import opened ImportResult
  import opened ImportSettles
  import opened PartnerSuccess
  import opened Partner

  // ---------- Categories and links ----------

  /** An entry brings this category, or it was not there before. */
  ghost predicate Brought(c: Catalog, d: Catalog, es: seq<CategoryEntry>, x: Id) {
    (x in d.categories.rows && x !in c.categories.rows) || exists e :: e in es && e.id == Given(x)
  }

  /** The shop is linked to what the entries bring, and nothing else is. */
  ghost predicate LinksAdded(c: Catalog, d: Catalog, es: seq<CategoryEntry>, shop: Id) {
    forall x, h :: (x, h) in d.links <==> (x, h) in c.links || (h == shop && Brought(c, d, es, x))
  }

  /** Old categories stay; every id is there under its name; a new one is that of an entry with its id or a null one. */
  ghost predicate CategoriesFrom(c: Catalog, d: Catalog, es: seq<CategoryEntry>) {
    && (forall x :: x in c.categories.rows ==> x in d.categories.rows && d.categories.rows[x] == c.categories.rows[x])
    && (forall e :: e in es && e.id.Given? ==> e.id.value in d.categories.rows && Given(d.categories.rows[e.id.value].name) == e.name)
    && (forall x :: x in d.categories.rows && x !in c.categories.rows ==>
          exists e :: e in es && Given(d.categories.rows[x].name) == e.name && (e.id == Given(x) || e.id == Null))
  }

  /** One entry: its category, there already under its name or new, and its link. */
  lemma EntryAdds(s: Session, e: CategoryEntry) returns (x: Id)
    requires Ready(s) && Run(s, PartnerCategory(e)).error.None?
    ensures var c, t := s.db.catalog, Run(s, PartnerCategory(e)); var d := t.db.catalog;
      && Ready(t) && t.regs.shop == s.regs.shop && e.name.Given? && e.id != Missing
      && (e.id.Given? ==> x == e.id.value) && (e.id.Null? ==> x !in c.categories.rows)
      && x in d.categories.rows && d.categories.rows[x].name == e.name.value
      && d.categories.rows == (if x in c.categories.rows then c.categories.rows else c.categories.rows[x := Category(e.name.value)])
      && d.links == c.links + {(x, s.regs.shop)} && d == c.(categories := d.categories, links := d.links)
      && t.db == s.db.(catalog := d)
  {
    CategorySucceeds(s, e, []);
    var one := OpenExactCategory(e.id.Get(), e.name.Get());
    assert e.id.Missing? || e.name.Missing? ==> CategoriesMatched(s.db.catalog.categories, [e]).None?;
    assert PartnerCategory(e) == [one] + [LinkCategory] && [LinkCategory] == [LinkCategory] + [];
    RunStep(s, one, [LinkCategory]);
    ExactCategorySucceeds(s, e);
    var s1 := Exec(s, one);
    RunStep(s1, LinkCategory, []);
    x := s1.regs.category;
  }

  lemma BroughtFirst(c: Catalog, m: Catalog, d: Catalog, es: seq<CategoryEntry>, shop: Id, x: Id)
    requires es != [] && LinksAdded(m, d, es[1..], shop) && CategoriesFrom(m, d, es[1..])
    requires (es[0].id.Given? ==> x == es[0].id.value) && (es[0].id.Null? ==> x !in c.categories.rows) && es[0].id != Missing
    requires x in m.categories.rows && m.links == c.links + {(x, shop)}
    requires forall y :: y in m.categories.rows <==> y in c.categories.rows || y == x
    ensures LinksAdded(c, d, es, shop)
  {
    assert es == [es[0]] + es[1..];
    forall y, h ensures (y, h) in d.links <==> (y, h) in c.links || (h == shop && Brought(c, d, es, y)) {
      assert Brought(c, d, es, y) <==> Brought(m, d, es[1..], y) || y == x by {
        assert es[0] in es && x in d.categories.rows;
        if e :| e in es && e.id == Given(y) { assert e == es[0] || e in es[1..]; }
        if e :| e in es[1..] && e.id == Given(y) { assert e in es; }
      }
    }
  }

  lemma CategoriesFromFirst(c: Catalog, m: Catalog, d: Catalog, es: seq<CategoryEntry>, x: Id)
    requires es != [] && CategoriesFrom(m, d, es[1..]) && es[0].name.Given? && es[0].id != Missing
    requires es[0].id.Given? ==> x == es[0].id.value
    requires x in m.categories.rows && m.categories.rows[x].name == es[0].name.value
    requires m.categories.rows == if x in c.categories.rows then c.categories.rows else c.categories.rows[x := Category(es[0].name.value)]
    ensures CategoriesFrom(c, d, es)
  {
    assert es == [es[0]] + es[1..];
    forall y | y in d.categories.rows && y !in c.categories.rows
      ensures exists e :: e in es && Given(d.categories.rows[y].name) == e.name && (e.id == Given(y) || e.id == Null)
    {
      if y in m.categories.rows {
        assert y == x && es[0] in es;
      } else {
        var e :| e in es[1..] && Given(d.categories.rows[y].name) == e.name && (e.id == Given(y) || e.id == Null);
        assert e in es;
      }
    }
  }

  lemma {:induction false} EntriesAdd(s: Session, es: seq<CategoryEntry>)
    requires Ready(s) && Run(s, PartnerCategories(es)).error.None?
    ensures var c, t := s.db.catalog, Run(s, PartnerCategories(es)); var d := t.db.catalog;
      && Ready(t) && t.regs.shop == s.regs.shop && t.db == s.db.(catalog := d) && d == c.(categories := d.categories, links := d.links)
      && LinksAdded(c, d, es, s.regs.shop) && CategoriesFrom(c, d, es)
    decreases |es|
  {
    if es != [] {
      RanHalves(s, PartnerCategory(es[0]), PartnerCategories(es[1..]));
      var x := EntryAdds(s, es[0]);
      var u := Run(s, PartnerCategory(es[0]));
      EntriesAdd(u, es[1..]);
      var d := Run(u, PartnerCategories(es[1..])).db.catalog;
      BroughtFirst(s.db.catalog, u.db.catalog, d, es, s.regs.shop, x);
      CategoriesFromFirst(s.db.catalog, u.db.catalog, d, es, x);
    }
  }

  // ---------- Products and product rows ----------

  ghost predicate HasExactly(c: Catalog, row: Product) {
    exists p :: p in c.products.rows && c.products.rows[p] == row
  }

  /** Old products stay; every good's name and category are there; a new one is a good's and was not there. */
  ghost predicate ProductsOf(c: Catalog, d: Catalog, gs: seq<Good>) {
    && (forall p :: p in c.products.rows ==> p in d.products.rows && d.products.rows[p] == c.products.rows[p])
    && (forall g :: g in gs ==> g.name.Given? && g.category.Given? && HasExactly(d, Product(g.name.value, g.category.value)))
    && (forall p :: p in d.products.rows && p !in c.products.rows ==>
          !HasExactly(c, d.products.rows[p]) &&
          exists g :: g in gs && g.name == Given(d.products.rows[p].name) && g.category == Given(d.products.rows[p].category))
  }

  /** This row holds the good's own values, under a product of its name and category. */
  ghost predicate RowOfGood(d: Catalog, i: Id, shop: Id, g: Good) {
    && i in d.infos.rows && d.infos.rows[i].product in d.products.rows
    && var r := d.infos.rows[i];
    && r.shop == shop && g.id == Given(r.ext) && g.model == Given(r.model) && g.price == Given(r.price)
    && g.rrc == Given(r.rrc) && g.quantity == Given(r.quantity)
    && g.name == Given(d.products.rows[r.product].name) && g.category == Given(d.products.rows[r.product].category)
  }

  ghost predicate HasRowOf(d: Catalog, shop: Id, taken: set<Id>, g: Good) {
    exists i :: i !in taken && RowOfGood(d, i, shop, g)
  }

  ghost predicate IsSomeGoods(d: Catalog, shop: Id, i: Id, gs: seq<Good>) {
    exists k :: 0 <= k < |gs| && RowOfGood(d, i, shop, gs[k])
  }

  ghost predicate OldRowsStay(c: Catalog, d: Catalog) {
    forall i :: i in c.infos.rows ==> i in d.infos.rows && d.infos.rows[i] == c.infos.rows[i]
  }

  /** Old rows stay, every good has a new row, and every new row is a good's. */
  ghost predicate RowsFrom(c: Catalog, d: Catalog, shop: Id, gs: seq<Good>) {
    && OldRowsStay(c, d)
    && (forall k :: 0 <= k < |gs| ==> HasRowOf(d, shop, c.infos.rows.Keys, gs[k]))
    && (forall i :: i in d.infos.rows && i !in c.infos.rows ==> IsSomeGoods(d, shop, i, gs))
  }

  lemma {:induction false} FieldKeeps(s: Session, p: seq<Stmt>)
    requires forall st :: st in p ==> st.OpenParameter? || st.AddValue? || st.Raise?
    ensures var c, t := s.db.catalog, Run(s, p); var d := t.db.catalog;
      && d == c.(parameters := d.parameters, values := d.values) && t.db == s.db.(catalog := d) && t.regs.shop == s.regs.shop
    decreases |p|
  {
    if p != [] && s.error.None? {
      assert p[0] in p;
      FieldKeeps(Exec(s, p[0]), p[1..]);
    }
  }

  lemma ExactProductAdds(s: Session, g: Good)
    requires Ready(s) && g.name.Given? && g.category.Given? && Exec(s, OpenExactProduct(g.name.Get(), g.category.Get())).error.None?
    ensures var c, t := s.db.catalog, Exec(s, OpenExactProduct(g.name.Get(), g.category.Get())); var d, row := t.db.catalog, Product(g.name.value, g.category.value);
      d.products == if HasExactly(c, row) then c.products else c.products.Insert(row)
  {
    var c, row := s.db.catalog, Product(g.name.value, g.category.value);
    var found := set i | i in ProductsNamed(c.products.rows, row.name) && c.products.rows[i].category == row.category;
    if Lookup(found).Multiple? { var i, j := Ambiguous(found); }
    if Lookup(found).One? { assert Lookup(found).id in found; }
    if p :| p in c.products.rows && c.products.rows[p] == row { assert p in found; }
  }

  lemma OneGoodAdds(s: Session, g: Good)
    requires Ready(s) && Run(s, PartnerGood(g)).error.None?
    ensures var c, t := s.db.catalog, Run(s, PartnerGood(g)); var d := t.db.catalog;
      && Ready(t) && t.regs.shop == s.regs.shop && t.db == s.db.(catalog := d)
      && d == c.(products := d.products, infos := d.infos, parameters := d.parameters, values := d.values)
      && g.name.Given? && g.category.Given?
      && d.products == (if HasExactly(c, Product(g.name.value, g.category.value)) then c.products
                        else c.products.Insert(Product(g.name.value, g.category.value)))
      && (forall i :: i in c.infos.rows ==> i in d.infos.rows && d.infos.rows[i] == c.infos.rows[i])
      && (forall i :: i in d.infos.rows <==> i in c.infos.rows || i == c.infos.next)
      && c.infos.next !in c.infos.rows && RowOfGood(d, c.infos.next, s.regs.shop, g)
  {
    GoodSucceeds(s, g);
    var field := PartnerParameterField(g.parameters);
    var one, two := OpenExactProduct(g.name.Get(), g.category.Get()), AddOffer(NewOffer(g));
    assert PartnerGood(g) == [one] + ([two] + field);
    RanFirst(s, one, [two] + field);
    ExactProductSucceeds(s, g.name.Get(), g.category.Get());
    ExactProductAdds(s, g);
    var s1 := Exec(s, one);
    RanFirst(s1, two, field);
    AddOfferSucceeds(s1, g);
    PartnerParametersSafe(OrEmpty(g.parameters));
    FieldKeeps(Exec(s1, two), field);
  }

  lemma HasStays(c: Catalog, d: Catalog, row: Product)
    requires forall p :: p in c.products.rows ==> p in d.products.rows && d.products.rows[p] == c.products.rows[p]
    ensures HasExactly(c, row) ==> HasExactly(d, row)
  {
    if p :| p in c.products.rows && c.products.rows[p] == row { assert p in d.products.rows && d.products.rows[p] == row; }
  }

  lemma ProductsOfFirst(c: Catalog, m: Catalog, d: Catalog, gs: seq<Good>)
    requires gs != [] && ProductsOf(m, d, gs[1..]) && gs[0].name.Given? && gs[0].category.Given? && c.products.Fresh()
    requires var row := Product(gs[0].name.value, gs[0].category.value);
      m.products == if HasExactly(c, row) then c.products else c.products.Insert(row)
    ensures ProductsOf(c, d, gs)
  {
    var row := Product(gs[0].name.value, gs[0].category.value);
    assert gs == [gs[0]] + gs[1..];
    assert HasExactly(m, row) by {
      if !HasExactly(c, row) { assert m.products.rows[c.products.next] == row && c.products.next in m.products.rows; }
    }
    var q :| q in m.products.rows && m.products.rows[q] == row;
    assert q in d.products.rows && d.products.rows[q] == row;
    forall p | p in d.products.rows && p !in c.products.rows
      ensures !HasExactly(c, d.products.rows[p])
      ensures exists g :: g in gs && g.name == Given(d.products.rows[p].name) && g.category == Given(d.products.rows[p].category)
    {
      if p in m.products.rows {
        assert d.products.rows[p] == row && gs[0] in gs;
      } else {
        HasStays(c, m, d.products.rows[p]);
        var g :| g in gs[1..] && g.name == Given(d.products.rows[p].name) && g.category == Given(d.products.rows[p].category);
        assert g in gs;
      }
    }
  }

  lemma RowStays(m: Catalog, d: Catalog, i: Id, shop: Id, g: Good)
    requires RowOfGood(m, i, shop, g) && OldRowsStay(m, d)
    requires forall p :: p in m.products.rows ==> p in d.products.rows && d.products.rows[p] == m.products.rows[p]
    ensures RowOfGood(d, i, shop, g)
  {}

  lemma HasRowBefore(d: Catalog, shop: Id, more: set<Id>, fewer: set<Id>, g: Good)
    requires fewer <= more && HasRowOf(d, shop, more, g)
    ensures HasRowOf(d, shop, fewer, g)
  {
    var i :| i !in more && RowOfGood(d, i, shop, g);
    assert i !in fewer;
  }

  lemma GoodsMore(d: Catalog, shop: Id, i: Id, gs: seq<Good>)
    requires gs != [] && IsSomeGoods(d, shop, i, gs[1..])
    ensures IsSomeGoods(d, shop, i, gs)
  {
    var k :| 0 <= k < |gs[1..]| && RowOfGood(d, i, shop, gs[1..][k]);
    assert gs[k+1] == gs[1..][k];
  }

  lemma RowsFromFirst(c: Catalog, m: Catalog, d: Catalog, shop: Id, gs: seq<Good>)
    requires gs != [] && RowsFrom(m, d, shop, gs[1..]) && OldRowsStay(c, m)
    requires forall p :: p in m.products.rows ==> p in d.products.rows && d.products.rows[p] == m.products.rows[p]
    requires forall i :: i in m.infos.rows <==> i in c.infos.rows || i == c.infos.next
    requires c.infos.next !in c.infos.rows && RowOfGood(m, c.infos.next, shop, gs[0])
    ensures RowsFrom(c, d, shop, gs)
  {
    var before, after := c.infos.rows.Keys, m.infos.rows.Keys;
    assert forall i :: i in before ==> i in after;
    RowStays(m, d, c.infos.next, shop, gs[0]);
    assert HasRowOf(d, shop, c.infos.rows.Keys, gs[0]);
    forall k | 0 <= k < |gs| ensures HasRowOf(d, shop, c.infos.rows.Keys, gs[k]) {
      if k > 0 {
        assert gs[k] == gs[1..][k-1];
        HasRowBefore(d, shop, after, before, gs[1..][k-1]);
      }
    }
    forall i | i in d.infos.rows && i !in c.infos.rows ensures IsSomeGoods(d, shop, i, gs) {
      if i == c.infos.next {
        assert RowOfGood(d, i, shop, gs[0]);
      } else {
        GoodsMore(d, shop, i, gs);
      }
    }
  }

  lemma {:induction false} AllGoodsAdd(s: Session, gs: seq<Good>)
    requires Ready(s) && Run(s, PartnerGoods(gs)).error.None?
    ensures var c, t := s.db.catalog, Run(s, PartnerGoods(gs)); var d := t.db.catalog;
      && t.regs.shop == s.regs.shop && t.db == s.db.(catalog := d)
      && d.shops == c.shops && d.links == c.links && d.categories == c.categories
      && ProductsOf(c, d, gs) && RowsFrom(c, d, s.regs.shop, gs)
    decreases |gs|
  {
    if gs != [] {
      RanHalves(s, PartnerGood(gs[0]), PartnerGoods(gs[1..]));
      OneGoodAdds(s, gs[0]);
      var u := Run(s, PartnerGood(gs[0]));
      AllGoodsAdd(u, gs[1..]);
      var d := Run(u, PartnerGoods(gs[1..])).db.catalog;
      ProductsOfFirst(s.db.catalog, u.db.catalog, d, gs);
      RowsFromFirst(s.db.catalog, u.db.catalog, d, s.regs.shop, gs);
    }
  }

  // ---------- The whole update ----------

  /** The user's own shop of this name. */
  ghost predicate OwnShop(c: Catalog, i: Id, name: string, user: Id) {
    i in c.shops.rows && c.shops.rows[i].name == name && c.shops.rows[i].owner == Some(user)
  }

  lemma OpensOwn(db: Db, name: string, user: Id)
    requires ValidCatalog(db.catalog) && Exec(Begin(db), OpenOwnShop(Some(name), user)).error.None?
    ensures var c, t := db.catalog, Exec(Begin(db), OpenOwnShop(Some(name), user));
      && Ready(t) && OwnShop(t.db.catalog, t.regs.shop, name, user) && t.db == db.(catalog := c.(shops := t.db.catalog.shops))
      && t.db.catalog.shops == (if exists i :: OwnShop(c, i, name, user) then c.shops
                                else Table(c.shops.rows[c.shops.next := Shop(name, Some(user))], c.shops.next + 1))
  {
    var c := db.catalog;
    OwnShopSucceeds(db, Some(name), user);
    var both := ShopsNamed(c.shops.rows, name) * ShopsOwnedBy(c.shops.rows, user);
    if Lookup(both).One? { assert Lookup(both).id in both && OwnShop(c, Lookup(both).id, name, user); }
    if i :| OwnShop(c, i, name, user) { assert i in both; }
  }

  /** The rows and lines that the deletion leaves. */
  ghost predicate Emptied(db: Db, t: Db, shop: Id) {
    && (forall i :: i in t.catalog.infos.rows <==> i in db.catalog.infos.rows && db.catalog.infos.rows[i].shop != shop)
    && (forall i :: i in t.catalog.infos.rows ==> t.catalog.infos.rows[i] == db.catalog.infos.rows[i])
    && t.sales.lines.rows == (map l | l in db.sales.lines.rows &&
         !(db.sales.lines.rows[l].info in db.catalog.infos.rows && db.catalog.infos.rows[db.sales.lines.rows[l].info].shop == shop) :: db.sales.lines.rows[l])
    && t.sales.orders == db.sales.orders && t.sales.contacts == db.sales.contacts && t.tasks == db.tasks
  }

  lemma Clears(s: Session)
    requires Ready(s)
    ensures var t := Run(s, [ClearOffers]);
      && t.error.None? && Ready(t) && t.regs == s.regs && Emptied(s.db, t.db, s.regs.shop)
      && t.db.catalog == s.db.catalog.(infos := t.db.catalog.infos, values := t.db.catalog.values)
  {
    ClearSucceeds(s);
    RunStep(s, ClearOffers, []);
    assert [ClearOffers] + [] == [ClearOffers];
    var t := Exec(s, ClearOffers);
    var kept := map l | l in s.db.sales.lines.rows &&
      !(s.db.sales.lines.rows[l].info in s.db.catalog.infos.rows && s.db.catalog.infos.rows[s.db.sales.lines.rows[l].info].shop == s.regs.shop) :: s.db.sales.lines.rows[l];
    assert forall l :: l in t.db.sales.lines.rows <==> l in kept;
    assert t.db.sales.lines.rows == kept;
  }

  lemma PartnerHeadAdds(db: Db, f: PriceFile, user: Id)
    requires ValidCatalog(db.catalog) && Run(Begin(db), PartnerHead(f, user)).error.None?
    ensures f.shop.Given? && f.categories.Given?
    ensures var c, t := db.catalog, Run(Begin(db), PartnerHead(f, user)); var d := t.db.catalog;
      && Ready(t) && OwnShop(d, t.regs.shop, f.shop.value, user)
      && d.shops == (if exists i :: OwnShop(c, i, f.shop.value, user) then c.shops
                     else Table(c.shops.rows[c.shops.next := Shop(f.shop.value, Some(user))], c.shops.next + 1))
      && LinksAdded(c, d, f.categories.value, t.regs.shop) && CategoriesFrom(c, d, f.categories.value)
      && CategoriesMatched(c.categories, f.categories.value) == Some(d.categories)
      && d.products == c.products && Emptied(db, t.db, t.regs.shop)
  {
    HeadSucceeds(db, f, user);
    var s, one, es := Begin(db), OpenOwnShop(f.shop.Get(), user), f.categories.value;
    assert PartnerHead(f, user) == [one] + (PartnerCategories(es) + [ClearOffers]);
    RanFirst(s, one, PartnerCategories(es) + [ClearOffers]);
    OpensOwn(db, f.shop.value, user);
    var s1 := Exec(s, one);
    RanHalves(s1, PartnerCategories(es), [ClearOffers]);
    EntriesAdd(s1, es);
    var s2 := Run(s1, PartnerCategories(es));
    Clears(s2);
    HeadParts(db.catalog, s1.db.catalog, s2.db.catalog, Run(s2, [ClearOffers]).db.catalog, es, s1.regs.shop);
  }

  lemma HeadParts(c: Catalog, m: Catalog, n: Catalog, d: Catalog, es: seq<CategoryEntry>, shop: Id)
    requires m == c.(shops := m.shops) && LinksAdded(m, n, es, shop) && CategoriesFrom(m, n, es)
    requires d == n.(infos := d.infos, values := d.values)
    ensures LinksAdded(c, d, es, shop) && CategoriesFrom(c, d, es)
  {
    forall x ensures Brought(c, d, es, x) <==> Brought(m, n, es, x) {}
  }

  /** The rows of the shop are the goods' own; those of other shops are as they were. */
  ghost predicate ShopRows(c: Catalog, d: Catalog, shop: Id, gs: seq<Good>) {
    && (forall i :: i in c.infos.rows && c.infos.rows[i].shop != shop ==> i in d.infos.rows && d.infos.rows[i] == c.infos.rows[i])
    && (forall i :: i in d.infos.rows && d.infos.rows[i].shop != shop ==> i in c.infos.rows && d.infos.rows[i] == c.infos.rows[i])
    && (forall k :: 0 <= k < |gs| ==> HasRowOf(d, shop, {}, gs[k]))
    && (forall i :: i in d.infos.rows && d.infos.rows[i].shop == shop ==> IsSomeGoods(d, shop, i, gs))
  }

  lemma RowsOfShop(c: Catalog, m: Catalog, d: Catalog, shop: Id, gs: seq<Good>)
    requires forall i :: i in m.infos.rows <==> i in c.infos.rows && c.infos.rows[i].shop != shop
    requires forall i :: i in m.infos.rows ==> m.infos.rows[i] == c.infos.rows[i]
    requires RowsFrom(m, d, shop, gs)
    ensures ShopRows(c, d, shop, gs)
  {
    forall k | 0 <= k < |gs| ensures HasRowOf(d, shop, {}, gs[k]) { HasRowBefore(d, shop, m.infos.rows.Keys, {}, gs[k]); }
    forall i | i in d.infos.rows && d.infos.rows[i].shop != shop ensures i in c.infos.rows && d.infos.rows[i] == c.infos.rows[i] {
      if i !in m.infos.rows { NewIsOfShop(d, shop, i, gs); }
    }
  }

  lemma NewIsOfShop(d: Catalog, shop: Id, i: Id, gs: seq<Good>)
    requires IsSomeGoods(d, shop, i, gs)
    ensures i in d.infos.rows && d.infos.rows[i].shop == shop
  {}

  lemma ProductsSame(c: Catalog, m: Catalog, d: Catalog, gs: seq<Good>)
    requires m.products == c.products && ProductsOf(m, d, gs)
    ensures ProductsOf(c, d, gs)
  {
    forall row ensures HasExactly(c, row) <==> HasExactly(m, row) {}
  }

  /**
   Every table after a success, for any accepted file: the user's own shop, a link to every category that
   the entries name or create, those categories, the products, the shop's rows column by column, and the
   order lines that held its old rows gone.
   */
  lemma PartnerAddsExactly(db: Db, f: PriceFile, user: Id)
    requires ValidCatalog(db.catalog) && Run(Begin(db), PartnerProgram(f, user)).error.None?
    ensures f.shop.Given? && f.categories.Given? && f.goods.Given?
    ensures var c, t := db.catalog, Run(Begin(db), PartnerProgram(f, user)); var d, shop := t.db.catalog, t.regs.shop;
      && OwnShop(d, shop, f.shop.value, user)
      && d.shops == (if exists i :: OwnShop(c, i, f.shop.value, user) then c.shops
                     else Table(c.shops.rows[c.shops.next := Shop(f.shop.value, Some(user))], c.shops.next + 1))
      && LinksAdded(c, d, f.categories.value, shop) && CategoriesFrom(c, d, f.categories.value)
      && CategoriesMatched(c.categories, f.categories.value) == Some(d.categories)
      && ProductsOf(c, d, f.goods.value) && ShopRows(c, d, shop, f.goods.value)
      && t.db.sales.orders == db.sales.orders && t.db.tasks == db.tasks
      && t.db.sales.lines.rows == (map l | l in db.sales.lines.rows &&
           !(db.sales.lines.rows[l].info in c.infos.rows && c.infos.rows[db.sales.lines.rows[l].info].shop == shop) :: db.sales.lines.rows[l])
  {
    PartnerSucceedsExactly(db, f, user);
    var s, head, gs := Begin(db), PartnerHead(f, user), f.goods.value;
    RanHalves(s, head, PartnerGoods(gs));
    PartnerHeadAdds(db, f, user);
    var u := Run(s, head);
    AllGoodsAdd(u, gs);
    var d := Run(u, PartnerGoods(gs)).db.catalog;
    RowsOfShop(db.catalog, u.db.catalog, d, u.regs.shop, gs);
    ProductsSame(db.catalog, u.db.catalog, d, gs);
    HeadRest(db.catalog, u.db.catalog, d, f.categories.value, u.regs.shop);
  }

  lemma HeadRest(c: Catalog, m: Catalog, d: Catalog, es: seq<CategoryEntry>, shop: Id)
    requires LinksAdded(c, m, es, shop) && CategoriesFrom(c, m, es) && d.links == m.links && d.categories == m.categories
    ensures LinksAdded(c, d, es, shop) && CategoriesFrom(c, d, es)
  {
    forall x ensures Brought(c, d, es, x) <==> Brought(c, m, es, x) {}
  }

  // ---------- What is listed ----------

  lemma {:induction false} ListingOf(gs: seq<Good>, k: int)
    requires AllUsable(gs) && DistinctIds(gs) && 0 <= k < |gs|
    ensures gs[k].id.Given? && gs[k].id.value in PartnerListing(gs) && Usable(gs[k]) && PartnerListing(gs)[gs[k].id.value] == PartnerOffer(gs[k])
    decreases |gs|
  {
    var m := |gs| - 1;
    UsableInit(gs);
    if k < m {
      ListingOf(gs[..m], k);
      assert gs[..m][k] == gs[k] && gs[k].id != gs[m].id;
    }
  }

  lemma OnlyText(ps: seq<(string, Scalar)>, j: int)
    requires 0 <= j < |ps| && DistinctNames(ps)
    ensures LastParameter(ps, ps[j].0) == Some(ps[j].1.Str())
    decreases |ps|
  {
    if j < |ps| - 1 {
      var init := ps[..|ps|-1];
      assert ps[j].0 != ps[|ps|-1].0;
      assert DistinctNames(init);
      OnlyText(init, j);
    }
  }

  /** A file without repeated ids: each good's offer, column by column and text by text, falsy values included. */
  lemma PartnerShows(db: Db, f: PriceFile, user: Id, k: int)
    requires ValidCatalog(db.catalog) && Run(Begin(db), PartnerProgram(f, user)).error.None?
    requires f.goods.Given? && DistinctIds(f.goods.value) && 0 <= k < |f.goods.value|
    ensures var t, g := Run(Begin(db), PartnerProgram(f, user)), f.goods.value[k]; var list := PriceList(t.db.catalog, t.regs.shop);
      && g.id.Given? && g.id.value in list && g.parameters.Given?
      && var o := list[g.id.value];
      && g.name == Given(o.product) && g.model == Given(o.model) && g.price == Given(o.price) && g.rrc == Given(o.rrc) && g.quantity == Given(o.quantity)
      && (forall j | 0 <= j < |g.parameters.value| :: g.parameters.value[j].1.Scalar? &&
            g.parameters.value[j].0 in o.parameters && o.parameters[g.parameters.value[j].0] == g.parameters.value[j].1.text)
      && (forall n | n in o.parameters :: exists j :: 0 <= j < |g.parameters.value| && g.parameters.value[j].0 == n)
  {
    var gs, g := f.goods.value, f.goods.value[k];
    PartnerPublishes(db, f, user);
    ListingOf(gs, k);
    PartnerSucceedsExactly(db, f, user);
    var keys := CategoriesMatched(db.catalog.categories, f.categories.value).value.rows.Keys;
    assert g in gs && Fits(keys, g);
    var ps := g.parameters.value;
    forall j | 0 <= j < |ps|
      ensures ps[j].1.Scalar? && ps[j].0 in PartnerOffer(g).parameters && PartnerOffer(g).parameters[ps[j].0] == ps[j].1.text
    {
      assert ps[j] in ps;
      OnlyText(ps, j);
      MergeAllShows(NO_PARAMETERS, ps, ps[j].0);
    }
    forall n | n in PartnerOffer(g).parameters ensures exists j :: 0 <= j < |ps| && ps[j].0 == n {
      MergeAllShows(NO_PARAMETERS, ps, n);
      NamedSomewhere(ps, n);
    }
  }

  lemma {:induction false} NamedSomewhere(ps: seq<(string, Scalar)>, name: string)
    requires LastParameter(ps, name).Some?
    ensures exists j :: 0 <= j < |ps| && ps[j].0 == name
    decreases |ps|
  {
    var m := |ps| - 1;
    if ps[m].0 != name {
      NamedSomewhere(ps[..m], name);
      var j :| 0 <= j < m && ps[..m][j].0 == name;
      assert ps[j].0 == name;
    }
  }

  /** And nothing else is listed. */
  lemma PartnerShowsOnly(db: Db, f: PriceFile, user: Id, ext: int)
    requires ValidCatalog(db.catalog) && Run(Begin(db), PartnerProgram(f, user)).error.None?
    requires f.goods.Given? && DistinctIds(f.goods.value)
    requires ext in PriceList(Run(Begin(db), PartnerProgram(f, user)).db.catalog, Run(Begin(db), PartnerProgram(f, user)).regs.shop)
    ensures exists k :: 0 <= k < |f.goods.value| && f.goods.value[k].id == Given(ext)
  {
    PartnerPublishes(db, f, user);
    PartnerListedIds(f.goods.value, ext);
  }
}
