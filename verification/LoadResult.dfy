/**
 What `load_data` publishes.  The price list of a shop after a successful import is a function of the
 file's goods alone, and every other shop's list is untouched.
 */
module LoadResult {
  import opened Prelude
  import opened Tables
  import opened Orm
  import opened Programs
  import opened PriceView
  import opened LoadSuccess

  type Prices = imap<int, Offer>

  // ---------- Reference definition ----------

  /** Later values win; unnamed and falsy ones are dropped. */
  ghost function MergeParameters(m: imap<string, string>, ps: seq<(string, Scalar)>): imap<string, string>
    decreases |ps|
  {
    if ps == [] then m
    else MergeParameters(if ps[0].0 != "" && ps[0].1.Truthy() then m[ps[0].0 := ps[0].1.text] else m, ps[1..])
  }

  ghost function ListGood(v: Prices, g: Good): Prices {
    if !Complete(g) || !Sound(g) then v
    else
      var before := if g.id.value in v then v[g.id.value].parameters else NO_PARAMETERS;
      v[g.id.value := Offer(g.name.value, g.model.GetOr("").value, g.price.value, g.rrc.value, g.quantity.value,
                            MergeParameters(before, OrEmpty(g.parameters)))]
  }

  /** The price list that a sequence of goods describes. */
  ghost function Listing(gs: seq<Good>): Prices {
    if gs == [] then imap[] else ListGood(Listing(gs[..|gs|-1]), gs[|gs|-1])
  }

  // ---------- Abstract programs ----------

  ghost function Of(v: View, shop: Id): Prices {
    imap e: int | (shop, e) in v :: v[(shop, e)]
  }

  lemma PriceListIsView(c: Catalog, shop: Id)
    ensures PriceList(c, shop) == Of(ViewOf(c), shop)
  {
    forall e: int ensures e in PriceList(c, shop) <==> e in Of(ViewOf(c), shop) {
      assert (shop, e) in ViewOf(c) <==> OfferAt(c, shop, e).Some?;
    }
  }

  /** From views back to price lists. */
  lemma ListsFromViews(c: Catalog, d: Catalog, shop: Id)
    requires Elsewhere(ViewOf(c), ViewOf(d), shop)
    ensures PriceList(d, shop) == Of(ViewOf(d), shop)
    ensures forall other | other != shop :: PriceList(d, other) == PriceList(c, other)
  {
    PriceListIsView(d, shop);
    forall other | other != shop ensures PriceList(d, other) == PriceList(c, other) {
      PriceListIsView(c, other);
      PriceListIsView(d, other);
      assert Of(ViewOf(c), other) == Of(ViewOf(d), other);
    }
  }

  ghost predicate Elsewhere(v: View, w: View, shop: Id) {
    forall t | t != shop :: Of(v, t) == Of(w, t)
  }

  lemma Written(v: View, w: View, shop: Id, ext: int, o: Offer)
    requires w == v[(shop, ext) := o]
    ensures Of(w, shop) == Of(v, shop)[ext := o] && Elsewhere(v, w, shop)
  {
    WrittenHere(v, w, shop, ext, o);
    forall t | t != shop ensures Of(v, t) == Of(w, t) { WrittenThere(v, w, shop, ext, o, t); }
  }

  lemma WrittenHere(v: View, w: View, shop: Id, ext: int, o: Offer)
    requires w == v[(shop, ext) := o]
    ensures Of(w, shop) == Of(v, shop)[ext := o]
  {
    var x, y := Of(w, shop), Of(v, shop)[ext := o];
    forall e: int ensures (e in x <==> e in y) && (e in x ==> x[e] == y[e]) {
      assert (shop, e) == (shop, ext) <==> e == ext;
    }
    assert x == y;
  }

  lemma WrittenThere(v: View, w: View, shop: Id, ext: int, o: Offer, t: Id)
    requires w == v[(shop, ext) := o] && t != shop
    ensures Of(v, t) == Of(w, t)
  {
    forall e: int ensures (t, e) in v <==> (t, e) in w {
      assert (t, e) != (shop, ext);
    }
  }

  lemma AbsParameter(a: Abs, p: (string, Scalar))
    requires a.key in a.view && p.1.Scalar?
    ensures var b, o := AbsExec(AbsExec(a, OpenParameter(p.0)), PutValue(p.1.text)), a.view[a.key];
      && b.shop == a.shop && b.key == a.key && b.product == a.product
      && b.view == a.view[a.key := o.(parameters := o.parameters[p.0 := p.1.text])]
  {}

  lemma {:induction false} AbsParameters(a: Abs, ps: seq<(string, Scalar)>)
    requires a.key in a.view
    ensures var b, o := AbsRun(a, LoadParameters(ps)), a.view[a.key];
      && b.shop == a.shop && b.key == a.key && b.product == a.product
      && b.view == a.view[a.key := o.(parameters := MergeParameters(o.parameters, ps))]
    decreases |ps|
  {
    if ps == [] {
      assert a.view[a.key := a.view[a.key]] == a.view;
    } else if ps[0].0 != "" && ps[0].1.Truthy() {
      var one, two := OpenParameter(ps[0].0), PutValue(ps[0].1.text);
      var rest := LoadParameters(ps[1..]);
      assert LoadParameters(ps) == [one] + ([two] + rest);
      AbsStep(a, one, [two] + rest);
      AbsStep(AbsExec(a, one), two, rest);
      AbsParameter(a, ps[0]);
      var b, o := AbsExec(AbsExec(a, one), two), a.view[a.key];
      AbsParameters(b, ps[1..]);
      Overwrite(a.view, a.key, b.view[a.key], o.(parameters := MergeParameters(o.parameters, ps)));
    } else {
      assert LoadParameters(ps) == LoadParameters(ps[1..]);
      AbsParameters(a, ps[1..]);
    }
  }

  lemma AbsStep(a: Abs, st: Stmt, rest: seq<Stmt>)
    ensures AbsRun(a, [st] + rest) == AbsRun(AbsExec(a, st), rest)
  {
    assert ([st] + rest)[1..] == rest;
  }

  /** The two statements that write one good's product row. */
  function RowStmts(g: Good): seq<Stmt>
    requires Complete(g)
  {
    [ OpenProduct(Some(g.name.value), Some(g.category.value)),
      PutOffer(g.id.value, g.model.GetOr(""), g.price.value, g.rrc.Get(), g.quantity.value) ]
  }

  lemma AbsRow(a: Abs, g: Good)
    requires Complete(g) && Sound(g.(parameters := Missing))
    ensures var b, key := AbsRun(a, RowStmts(g)), (a.shop, g.id.value);
      && b.shop == a.shop && b.key == key
      && b.view == a.view[key := Offer(g.name.value, g.model.GetOr("").value, g.price.value, g.rrc.value, g.quantity.value,
                                       ParametersAt(a.view, key))]
  {
    AbsStep(a, RowStmts(g)[0], [RowStmts(g)[1]]);
    AbsStep(AbsExec(a, RowStmts(g)[0]), RowStmts(g)[1], []);
    assert RowStmts(g) == [RowStmts(g)[0]] + [RowStmts(g)[1]] && [RowStmts(g)[1]] == [RowStmts(g)[1]] + [];
  }

  /** A sound good whose parameters are given as a list: its whole program. */
  lemma AbsSoundGood(a: Abs, g: Good, ps: seq<(string, Scalar)>)
    requires Complete(g) && Sound(g.(parameters := Missing)) && ps == OrEmpty(g.parameters) && g.parameters != Null
    ensures var b := AbsRun(a, RowStmts(g) + LoadParameters(ps));
      b.shop == a.shop && Of(b.view, a.shop) == ListGood(Of(a.view, a.shop), g) && Elsewhere(a.view, b.view, a.shop)
  {
    AbsRow(a, g);
    AbsRunAppend(a, RowStmts(g), LoadParameters(ps));
    var m, key := AbsRun(a, RowStmts(g)), (a.shop, g.id.value);
    AbsParameters(m, ps);
    var o := m.view[key].(parameters := MergeParameters(m.view[key].parameters, ps));
    Overwrite(a.view, key, m.view[key], o);
    Written(a.view, a.view[key := o], a.shop, g.id.value, o);
    assert ParametersAt(a.view, key) ==
      if g.id.value in Of(a.view, a.shop) then Of(a.view, a.shop)[g.id.value].parameters else NO_PARAMETERS;
  }

  lemma AbsGood(a: Abs, g: Good)
    requires Complete(g) ==> Sound(g)
    ensures var b := AbsRun(a, LoadGood(g));
      b.shop == a.shop && Of(b.view, a.shop) == ListGood(Of(a.view, a.shop), g) && Elsewhere(a.view, b.view, a.shop)
  {
    if Complete(g) {
      assert LoadGood(g) == RowStmts(g) + LoadParameters(OrEmpty(g.parameters));
      AbsSoundGood(a, g, OrEmpty(g.parameters));
    }
  }

  ghost predicate AllSound(gs: seq<Good>) {
    forall k :: 0 <= k < |gs| && Complete(gs[k]) ==> Sound(gs[k])
  }

  lemma {:induction false} AbsGoods(a: Abs, gs: seq<Good>)
    requires AllSound(gs) && Of(a.view, a.shop) == imap[]
    ensures var b := AbsRun(a, LoadGoods(gs));
      b.shop == a.shop && Of(b.view, a.shop) == Listing(gs) && Elsewhere(a.view, b.view, a.shop)
    decreases |gs|
  {
    if gs != [] {
      var m := |gs| - 1;
      assert forall k :: 0 <= k < m ==> gs[..m][k] == gs[k];
      AbsGoods(a, gs[..m]);
      LoadGoodsSnoc(gs);
      AbsRunAppend(a, LoadGoods(gs[..m]), LoadGood(gs[m]));
      AbsGood(AbsRun(a, LoadGoods(gs[..m])), gs[m]);
    }
  }

  // ---------- The head: shop, categories, deletion ----------

  /** The values that the local variables stand for at the start of a run. */
  ghost function AbsOf(c: Catalog, r: Regs): Abs {
    Abs(ViewOf(c), r.shop, ProductName(c, r.product),
        if r.info in c.infos.rows then (c.infos.rows[r.info].shop, c.infos.rows[r.info].ext) else (0, 0),
        if r.parameter in c.parameters.rows then c.parameters.rows[r.parameter].name else "")
  }

  lemma {:induction false} AbsCategories(a: Abs, es: seq<CategoryEntry>)
    ensures AbsRun(a, LoadCategories(es)) == a
    decreases |es|
  {
    if es != [] {
      AbsRunAppend(a, LoadCategory(es[0]), LoadCategories(es[1..]));
      if Accepted(es[0]) {
        AbsStep(a, LoadCategory(es[0])[0], [LinkCategory]);
        AbsStep(a, LinkCategory, []);
        assert LoadCategory(es[0]) == [LoadCategory(es[0])[0]] + [LinkCategory] && [LinkCategory] + [] == [LinkCategory];
      }
      AbsCategories(a, es[1..]);
    }
  }

  lemma OpenShopRefines(c: Catalog, name: Option<string>, owner: Option<Id>)
    requires Core(c) && GetOrCreateShop(c, name, owner).Ok?
    ensures var d := GetOrCreateShop(c, name, owner).catalog; Core(d) && ViewOf(d) == ViewOf(c)
  {
    var d := GetOrCreateShop(c, name, owner).catalog;
    ShopKeeps(c, name, owner);
    ProductsGrow(c, d);
  }

  /** After the head the shop lists nothing and the others list what they did. */
  lemma HeadRefines(db: Db, f: PriceFile, user: Option<Id>) returns (a: Abs)
    requires ValidCatalog(db.catalog) && f.categories.Given? && Run(Begin(db), LoadHead(f, user)).error.None?
    ensures var t := Run(Begin(db), LoadHead(f, user));
      && Core(t.db.catalog) && Match(t.db.catalog, t.regs, a)
      && Of(a.view, t.regs.shop) == imap[] && Elsewhere(ViewOf(db.catalog), a.view, t.regs.shop)
  {
    var s, one := Begin(db), OpenShop(f.shop.Get(), TruthyUser(user));
    var two := LoadCategories(f.categories.value) + [ClearOffers];
    assert LoadHead(f, user) == [one] + two;
    RunStep(s, one, two);
    OpenShopRefines(db.catalog, one.shopName, one.owner);
    a := HeadClears(Exec(s, one), f.categories.value);
  }

  lemma HeadClears(s: Session, es: seq<CategoryEntry>) returns (a: Abs)
    requires Core(s.db.catalog) && s.error.None? && Run(s, LoadCategories(es) + [ClearOffers]).error.None?
    ensures var t := Run(s, LoadCategories(es) + [ClearOffers]);
      && t.regs.shop == s.regs.shop && Core(t.db.catalog) && Match(t.db.catalog, t.regs, a)
      && Of(a.view, s.regs.shop) == imap[] && Elsewhere(ViewOf(s.db.catalog), a.view, s.regs.shop)
  {
    var before, p := AbsOf(s.db.catalog, s.regs), LoadCategories(es) + [ClearOffers];
    LoadCategoriesRest(es);
    RunRefines(s, before, p);
    AbsClear(before, es);
    RunKeepsShop(s, p);
    a := AbsRun(before, p);
  }

  lemma AbsClear(a: Abs, es: seq<CategoryEntry>)
    ensures var b := AbsRun(a, LoadCategories(es) + [ClearOffers]);
      b.shop == a.shop && Of(b.view, a.shop) == imap[] && Elsewhere(a.view, b.view, a.shop)
  {
    AbsCategories(a, es);
    AbsRunAppend(a, LoadCategories(es), [ClearOffers]);
    AbsStep(a, ClearOffers, []);
    assert [ClearOffers] + [] == [ClearOffers];
    var b := AbsExec(a, ClearOffers);
    forall t, e: int ensures (t, e) in b.view <==> (t, e) in a.view && t != a.shop {}
  }

  lemma {:induction false} RunKeepsShop(s: Session, p: seq<Stmt>)
    requires forall st :: st in p ==> BodyStmt(st)
    ensures Run(s, p).regs.shop == s.regs.shop && Run(s, p).db.catalog.shops == s.db.catalog.shops
    decreases |p|
  {
    if p != [] && s.error.None? {
      assert p[0] in p;
      RunKeepsShop(Exec(s, p[0]), p[1..]);
    }
  }

  // ---------- Main results ----------

  /**
   A successful import, whatever the shop held before: its price list is the one the file describes,
   and the price list of every other shop is what it was.
   */
  lemma LoadPublishesFile(db: Db, f: PriceFile, user: Option<Id>)
    requires ValidCatalog(db.catalog) && Run(Begin(db), LoadProgram(f, user)).error.None?
    ensures var t := Run(Begin(db), LoadProgram(f, user)); var d, shop := t.db.catalog, t.regs.shop;
      && f.goods.Given? && shop in d.shops.rows && Given(d.shops.rows[shop].name) == f.shop
      && PriceList(d, shop) == Listing(f.goods.value)
      && forall other | other != shop :: PriceList(d, other) == PriceList(db.catalog, other)
  {
    LoadSucceedsExactly(db, f, user);
    var s := Begin(db);
    RunAppend(s, LoadHead(f, user), LoadTail(f));
    var u := Run(s, LoadHead(f, user));
    HeadRuns(db, f, user);
    var a := HeadRefines(db, f, user);
    TailPublishes(u, a, f);
    var d := Run(u, LoadTail(f)).db.catalog;
    ListsFromViews(db.catalog, d, u.regs.shop);
  }

  lemma TailPublishes(u: Session, a: Abs, f: PriceFile)
    requires u.error.None? && Core(u.db.catalog) && Match(u.db.catalog, u.regs, a) && Of(a.view, a.shop) == imap[]
    requires f.goods.Given? && AllSound(f.goods.value) && Run(u, LoadTail(f)).error.None?
    ensures var t := Run(u, LoadTail(f));
      && t.regs.shop == u.regs.shop && t.db.catalog.shops == u.db.catalog.shops
      && Of(ViewOf(t.db.catalog), a.shop) == Listing(f.goods.value) && Elsewhere(a.view, ViewOf(t.db.catalog), a.shop)
  {
    LoadTailRest(f);
    RunRefines(u, a, LoadTail(f));
    AbsGoods(a, f.goods.value);
    RunKeepsShop(u, LoadTail(f));
  }
}
