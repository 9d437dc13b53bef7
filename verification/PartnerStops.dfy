/**
 How `PartnerUpdate` fails.  Before its deletion nothing that a customer sees has changed; after it the
 shop's old rows are gone, with the order lines that held them, and the goods before the failing one are
 there.  Nothing rolls it back.
 */
module PartnerStops {
  import opened Prelude
  import opened Tables
  import opened Orm
  import opened Programs
  import opened LoadResult
  import opened ImportSettles
  import opened PartnerSuccess
  import opened Partner
  import opened PartnerOfFields

  // ---------- The failing good ----------

  lemma GoodsCons(u: Session, gs: seq<Good>, i: nat)
    requires i < |gs|
    ensures Run(u, PartnerGoods(gs[..i+1])) == Run(Run(u, PartnerGood(gs[0])), PartnerGoods(gs[1..][..i]))
  {
    var hs := gs[..i+1];
    assert hs[0] == gs[0] && hs[1..] == gs[1..][..i];
    RunAppend(u, PartnerGood(hs[0]), PartnerGoods(hs[1..]));
  }

  lemma {:induction false} FailingGood(u: Session, gs: seq<Good>) returns (i: nat)
    requires u.error.None? && Run(u, PartnerGoods(gs)).error.Some?
    ensures i < |gs| && Run(u, PartnerGoods(gs[..i])).error.None?
    ensures Run(u, PartnerGoods(gs)) == Run(Run(u, PartnerGoods(gs[..i])), PartnerGood(gs[i]))
    decreases |gs|
  {
    var v := Run(u, PartnerGood(gs[0]));
    RunAppend(u, PartnerGood(gs[0]), PartnerGoods(gs[1..]));
    if v.error.Some? {
      i := 0;
    } else {
      var j := FailingGood(v, gs[1..]);
      i := j + 1;
      GoodsCons(u, gs, j);
    }
  }

  lemma GoodsThen(u: Session, gs: seq<Good>, g: Good)
    ensures Run(u, PartnerGoods(gs + [g])) == Run(Run(u, PartnerGoods(gs)), PartnerGood(g))
  {
    assert (gs + [g])[..|gs|] == gs;
    PartnerGoodsSnoc(gs + [g]);
    RunAppend(u, PartnerGoods(gs), PartnerGood(g));
  }

  /** Everything about the good but its parameters is fine. */
  ghost predicate RowComes(v: Session, g: Good) {
    && g.name.Given? && g.category.Given? && g.category.value in v.db.catalog.categories.rows
    && RowFits(g) && OfferFree(v, g)
  }

  lemma WithoutParameters(v: Session, g: Good)
    requires Ready(v)
    ensures Run(v, PartnerGood(g.(parameters := Given([])))).error.None? <==> RowComes(v, g)
  {
    var h := g.(parameters := Given([]));
    GoodSucceeds(v, h);
    assert OfferFree(v, h) <==> OfferFree(v, g);
  }

  /** The rows of a store, and nothing else a customer sees, are the same. */
  ghost predicate SameRowsAndOrders(a: Db, b: Db) {
    b.catalog.infos == a.catalog.infos && b.sales == a.sales && b.tasks == a.tasks
  }

  ghost predicate ProductsStay(c: Catalog, d: Catalog) {
    forall p :: p in c.products.rows ==> p in d.products.rows && d.products.rows[p] == c.products.rows[p]
  }

  /** A good whose row does not come leaves at most its product. */
  lemma NoRow(v: Session, g: Good)
    requires Ready(v) && !RowComes(v, g)
    ensures var t := Run(v, PartnerGood(g));
      SameRowsAndOrders(v.db, t.db) && ProductsStay(v.db.catalog, t.db.catalog) && t.regs.shop == v.regs.shop
  {
    if g.name.Missing? || g.category.Missing? {
      RunStep(v, Raise(KeyError), []);
      assert PartnerGood(g) == [Raise(KeyError)] + [];
    } else {
      var one := OpenExactProduct(g.name.Get(), g.category.Get());
      ExactProductSucceeds(v, g.name.Get(), g.category.Get());
      var s1 := Exec(v, one);
      if g.id.Missing? || g.model.Missing? || g.price.Missing? || g.rrc.Missing? || g.quantity.Missing? {
        assert PartnerGood(g) == [one] + [Raise(KeyError)] && [Raise(KeyError)] == [Raise(KeyError)] + [];
        RunStep(v, one, [Raise(KeyError)]);
        if s1.error.None? { RunStep(s1, Raise(KeyError), []); }
      } else {
        RowRefused(v, g);
      }
    }
  }

  lemma RowRefused(v: Session, g: Good)
    requires Ready(v) && !RowComes(v, g) && !g.name.Missing? && !g.category.Missing?
    requires !(g.id.Missing? || g.model.Missing? || g.price.Missing? || g.rrc.Missing? || g.quantity.Missing?)
    ensures var t := Run(v, PartnerGood(g));
      SameRowsAndOrders(v.db, t.db) && ProductsStay(v.db.catalog, t.db.catalog) && t.regs.shop == v.regs.shop
  {
    var one, two, rest := OpenExactProduct(g.name.Get(), g.category.Get()), AddOffer(NewOffer(g)), PartnerParameterField(g.parameters);
    assert PartnerGood(g) == [one] + ([two] + rest);
    ExactProductSucceeds(v, g.name.Get(), g.category.Get());
    RowSucceeds(v, g, rest);
    RunStep(v, one, [two] + rest);
    RunStep(v, one, [two] + []);
    var s1 := Exec(v, one);
    if s1.error.None? {
      RunStep(s1, two, rest);
      RunStep(s1, two, []);
    }
  }

  /** A good whose parameters fail leaves its row. */
  lemma RowStaysBehind(v: Session, g: Good)
    requires Ready(v) && RowComes(v, g)
    ensures var c, t := v.db.catalog, Run(v, PartnerGood(g)); var d := t.db.catalog;
      && ProductsStay(c, d) && OldRowsStay(c, d) && c.infos.next !in c.infos.rows
      && (forall i :: i in d.infos.rows <==> i in c.infos.rows || i == c.infos.next)
      && RowOfGood(d, c.infos.next, v.regs.shop, g)
      && t.db.sales == v.db.sales && t.db.tasks == v.db.tasks && t.regs.shop == v.regs.shop
  {
    var field := PartnerParameterField(g.parameters);
    var one, two := OpenExactProduct(g.name.Get(), g.category.Get()), AddOffer(NewOffer(g));
    assert PartnerGood(g) == [one] + ([two] + field);
    RunStep(v, one, [two] + field);
    ExactProductSucceeds(v, g.name.Get(), g.category.Get());
    var s1 := Exec(v, one);
    RunStep(s1, two, field);
    RowsKeepProducts(v.db.catalog, s1.db.catalog, v.regs.shop);
    AddOfferSucceeds(s1, g);
    PartnerParametersSafe(OrEmpty(g.parameters));
    FieldKeeps(Exec(s1, two), field);
  }

  // ---------- The rows in the end ----------

  lemma HasRowStays(m: Catalog, d: Catalog, shop: Id, taken: set<Id>, g: Good)
    requires HasRowOf(m, shop, taken, g) && OldRowsStay(m, d) && ProductsStay(m, d)
    ensures HasRowOf(d, shop, taken, g)
  {
    var i :| i !in taken && RowOfGood(m, i, shop, g);
    RowStays(m, d, i, shop, g);
  }

  lemma SomeGoodsStays(m: Catalog, d: Catalog, shop: Id, i: Id, gs: seq<Good>, hs: seq<Good>)
    requires IsSomeGoods(m, shop, i, gs) && gs <= hs && OldRowsStay(m, d) && ProductsStay(m, d)
    ensures IsSomeGoods(d, shop, i, hs)
  {
    var k :| 0 <= k < |gs| && RowOfGood(m, i, shop, gs[k]);
    RowStays(m, d, i, shop, gs[k]);
    assert RowOfGood(d, i, shop, hs[k]);
  }

  lemma NoMoreRows(c: Catalog, m: Catalog, d: Catalog, shop: Id, gs: seq<Good>)
    requires RowsFrom(c, m, shop, gs) && d.infos == m.infos && ProductsStay(m, d)
    ensures RowsFrom(c, d, shop, gs)
  {
    forall k | 0 <= k < |gs| ensures HasRowOf(d, shop, c.infos.rows.Keys, gs[k]) { HasRowStays(m, d, shop, c.infos.rows.Keys, gs[k]); }
    forall i | i in d.infos.rows && i !in c.infos.rows ensures IsSomeGoods(d, shop, i, gs) { SomeGoodsStays(m, d, shop, i, gs, gs); }
  }

  lemma OneMoreRow(c: Catalog, m: Catalog, d: Catalog, shop: Id, gs: seq<Good>, g: Good, n: Id)
    requires RowsFrom(c, m, shop, gs) && OldRowsStay(m, d) && ProductsStay(m, d)
    requires (forall i :: i in d.infos.rows <==> i in m.infos.rows || i == n) && n !in m.infos.rows && RowOfGood(d, n, shop, g)
    ensures RowsFrom(c, d, shop, gs + [g])
  {
    var hs, taken := gs + [g], c.infos.rows.Keys;
    assert n !in taken;
    forall k | 0 <= k < |hs| ensures HasRowOf(d, shop, taken, hs[k]) {
      if k < |gs| { HasRowStays(m, d, shop, taken, gs[k]); } else { assert RowOfGood(d, n, shop, hs[k]); }
    }
    forall i | i in d.infos.rows && i !in c.infos.rows ensures IsSomeGoods(d, shop, i, hs) {
      if i == n { assert RowOfGood(d, i, shop, hs[|gs|]); } else { SomeGoodsStays(m, d, shop, i, gs, hs); }
    }
  }

  lemma LastRows(c: Catalog, v: Session, gs: seq<Good>, g: Good, row: bool)
    requires Ready(v) && RowsFrom(c, v.db.catalog, v.regs.shop, gs) && (row <==> RowComes(v, g))
    ensures var t := Run(v, PartnerGood(g));
      && RowsFrom(c, t.db.catalog, v.regs.shop, if row then gs + [g] else gs)
      && t.db.sales == v.db.sales && t.db.tasks == v.db.tasks && t.regs.shop == v.regs.shop
  {
    if row {
      RowStaysBehind(v, g);
      OneMoreRow(c, v.db.catalog, Run(v, PartnerGood(g)).db.catalog, v.regs.shop, gs, g, v.db.catalog.infos.next);
    } else {
      NoRow(v, g);
      NoMoreRows(c, v.db.catalog, Run(v, PartnerGood(g)).db.catalog, v.regs.shop, gs);
    }
  }

  // ---------- The head ----------

  /** The shop can be opened and every category entry matches: the deletion is reached. */
  ghost predicate PartnerDeletes(c: Catalog, f: PriceFile, user: Id) {
    && f.shop.Given? && f.categories.Given? && OwnShopOpens(c, f.shop.value, user)
    && CategoriesMatched(c.categories, f.categories.value).Some?
  }

  predicate HeadStmt(st: Stmt) {
    st.OpenOwnShop? || st.OpenExactCategory? || st.LinkCategory? || st.Raise?
  }

  lemma {:induction false} HeadShowsLittle(s: Session, p: seq<Stmt>)
    requires forall st :: st in p ==> HeadStmt(st)
    ensures SameRowsAndOrders(s.db, Run(s, p).db) && Run(s, p).db.catalog.products == s.db.catalog.products
    decreases |p|
  {
    if p != [] && s.error.None? {
      assert p[0] in p;
      HeadShowsLittle(Exec(s, p[0]), p[1..]);
    }
  }

  lemma {:induction false} EntriesAreHead(es: seq<CategoryEntry>)
    ensures forall st :: st in PartnerCategories(es) ==> HeadStmt(st)
    decreases |es|
  {
    if es != [] { EntriesAreHead(es[1..]); }
  }

  /** A head that fails has deleted nothing. */
  lemma HeadFailsEarly(db: Db, f: PriceFile, user: Id)
    requires ValidCatalog(db.catalog) && !PartnerDeletes(db.catalog, f, user)
    ensures var t := Run(Begin(db), PartnerProgram(f, user));
      t.error.Some? && SameRowsAndOrders(db, t.db) && t.db.catalog.products == db.catalog.products
  {
    var s, tail := Begin(db), MissingOr(f.goods, PartnerGoods(OrEmpty(f.goods)));
    HeadSucceeds(db, f, user);
    RunAppend(s, PartnerHead(f, user), tail);
    if f.shop.Missing? {
      HeadShowsLittle(s, PartnerHead(f, user));
    } else {
      var body := [OpenOwnShop(f.shop.Get(), user)] + MissingOr(f.categories, PartnerCategories(OrEmpty(f.categories)));
      assert PartnerHead(f, user) == body + [ClearOffers];
      RunAppend(s, body, [ClearOffers]);
      EntriesAreHead(OrEmpty(f.categories));
      HeadShowsLittle(s, body);
      if Run(s, body).error.None? { ClearNeverFails(Run(s, body)); }
    }
  }

  lemma ClearNeverFails(s: Session)
    requires s.error.None?
    ensures Run(s, [ClearOffers]).error.None?
  {
    RunStep(s, ClearOffers, []);
    assert [ClearOffers] + [] == [ClearOffers];
  }

  // ---------- Main result ----------

  lemma RunsToGoods(db: Db, f: PriceFile, user: Id, gs: seq<Good>)
    requires ValidCatalog(db.catalog) && PartnerDeletes(db.catalog, f, user)
    ensures Run(Begin(db), PartnerProgram(f.(goods := Given(gs)), user)) == Run(Run(Begin(db), PartnerHead(f, user)), PartnerGoods(gs))
    ensures PartnerAccepts(db.catalog, f.(goods := Given(gs)), user) <==>
      Run(Run(Begin(db), PartnerHead(f, user)), PartnerGoods(gs)).error.None?
  {
    var h := f.(goods := Given(gs));
    assert PartnerHead(h, user) == PartnerHead(f, user);
    RunAppend(Begin(db), PartnerHead(f, user), PartnerGoods(gs));
    PartnerSucceedsExactly(db, h, user);
  }

  /** The good at which it stops: with those before it the file is accepted, with it no more. */
  ghost predicate StopsAtGood(c: Catalog, f: PriceFile, user: Id, i: nat) {
    && i < |OrEmpty(f.goods)|
    && PartnerAccepts(c, f.(goods := Given(OrEmpty(f.goods)[..i])), user)
    && !PartnerAccepts(c, f.(goods := Given(OrEmpty(f.goods)[..i+1])), user)
  }

  /** Only its parameters are at fault: without any the file would be accepted. */
  ghost predicate OnlyParametersFail(c: Catalog, f: PriceFile, user: Id, i: nat)
    requires i < |OrEmpty(f.goods)|
  {
    PartnerAccepts(c, f.(goods := Given(OrEmpty(f.goods)[..i] + [OrEmpty(f.goods)[i].(parameters := Given([]))])), user)
  }

  lemma StopsBetween(db: Db, f: PriceFile, user: Id, i: nat)
    requires ValidCatalog(db.catalog) && PartnerDeletes(db.catalog, f, user) && f.goods.Given? && i < |f.goods.value|
    requires var v := Run(Run(Begin(db), PartnerHead(f, user)), PartnerGoods(f.goods.value[..i]));
      v.error.None? && Run(v, PartnerGood(f.goods.value[i])).error.Some?
    ensures StopsAtGood(db.catalog, f, user, i)
  {
    var gs, u := f.goods.value, Run(Begin(db), PartnerHead(f, user));
    RunsToGoods(db, f, user, gs[..i]);
    assert gs[..i+1] == gs[..i] + [gs[i]];
    GoodsThen(u, gs[..i], gs[i]);
    RunsToGoods(db, f, user, gs[..i+1]);
  }

  /** The failing good, seen from the file and from the run. */
  lemma FindsGood(db: Db, f: PriceFile, user: Id) returns (i: nat)
    requires ValidCatalog(db.catalog) && PartnerDeletes(db.catalog, f, user) && f.goods.Given?
    requires Run(Begin(db), PartnerProgram(f, user)).error.Some?
    ensures StopsAtGood(db.catalog, f, user, i)
    ensures var u, gs := Run(Begin(db), PartnerHead(f, user)), f.goods.value; var v := Run(u, PartnerGoods(gs[..i]));
      v.error.None? && Run(Begin(db), PartnerProgram(f, user)) == Run(v, PartnerGood(gs[i]))
  {
    PartnerHeadPasses(db, f, user);
    assert f.(goods := Given(f.goods.value)) == f;
    RunsToGoods(db, f, user, f.goods.value);
    i := FailingGood(Run(Begin(db), PartnerHead(f, user)), f.goods.value);
    StopsBetween(db, f, user, i);
  }

  lemma FaultIsRow(db: Db, f: PriceFile, user: Id, i: nat)
    requires ValidCatalog(db.catalog) && PartnerDeletes(db.catalog, f, user) && i < |OrEmpty(f.goods)|
    requires Run(Run(Begin(db), PartnerHead(f, user)), PartnerGoods(OrEmpty(f.goods)[..i])).error.None?
    ensures var v := Run(Run(Begin(db), PartnerHead(f, user)), PartnerGoods(OrEmpty(f.goods)[..i]));
      Ready(v) && (OnlyParametersFail(db.catalog, f, user, i) <==> RowComes(v, OrEmpty(f.goods)[i]))
  {
    var gs, u := OrEmpty(f.goods), Run(Begin(db), PartnerHead(f, user));
    var bare := gs[i].(parameters := Given([]));
    PartnerHeadPasses(db, f, user);
    ReadyAfter(u, gs[..i]);
    GoodsThen(u, gs[..i], bare);
    RunsToGoods(db, f, user, gs[..i] + [bare]);
    WithoutParameters(Run(u, PartnerGoods(gs[..i])), gs[i]);
  }

  lemma GoodsFail(db: Db, f: PriceFile, user: Id) returns (i: nat)
    requires ValidCatalog(db.catalog) && PartnerDeletes(db.catalog, f, user) && f.goods.Given?
    requires Run(Begin(db), PartnerProgram(f, user)).error.Some?
    ensures StopsAtGood(db.catalog, f, user, i)
    ensures var t, u, gs := Run(Begin(db), PartnerProgram(f, user)), Run(Begin(db), PartnerHead(f, user)), f.goods.value;
      && RowsFrom(u.db.catalog, t.db.catalog, u.regs.shop, if OnlyParametersFail(db.catalog, f, user, i) then gs[..i] + [gs[i]] else gs[..i])
      && t.db.sales == u.db.sales && t.db.tasks == u.db.tasks && t.regs.shop == u.regs.shop
  {
    i := FindsGood(db, f, user);
    var gs, u := f.goods.value, Run(Begin(db), PartnerHead(f, user));
    PartnerHeadPasses(db, f, user);
    FaultIsRow(db, f, user, i);
    AllGoodsAdd(u, gs[..i]);
    LastRows(u.db.catalog, Run(u, PartnerGoods(gs[..i])), gs[..i], gs[i], OnlyParametersFail(db.catalog, f, user, i));
  }

  lemma PartnerHeadPasses(db: Db, f: PriceFile, user: Id)
    requires ValidCatalog(db.catalog) && PartnerDeletes(db.catalog, f, user)
    ensures Run(Begin(db), PartnerHead(f, user)).error.None? && Ready(Run(Begin(db), PartnerHead(f, user)))
  {
    HeadSucceeds(db, f, user);
  }

  lemma {:induction false} ReadyAfter(s: Session, gs: seq<Good>)
    requires Ready(s) && Run(s, PartnerGoods(gs)).error.None?
    ensures Ready(Run(s, PartnerGoods(gs)))
    decreases |gs|
  {
    if gs != [] {
      RanHalves(s, PartnerGood(gs[0]), PartnerGoods(gs[1..]));
      OneGoodAdds(s, gs[0]);
      ReadyAfter(Run(s, PartnerGood(gs[0])), gs[1..]);
    }
  }

  /** Goods that are absent or null fail right after the deletion. */
  lemma NoGoodsFail(db: Db, f: PriceFile, user: Id)
    requires ValidCatalog(db.catalog) && PartnerDeletes(db.catalog, f, user) && !f.goods.Given?
    ensures var t, u := Run(Begin(db), PartnerProgram(f, user)), Run(Begin(db), PartnerHead(f, user));
      t.error.Some? && t.db == u.db && t.regs == u.regs
  {
    var raise := Raise(if f.goods.Missing? then KeyError else TypeError);
    PartnerHeadPasses(db, f, user);
    RunAppend(Begin(db), PartnerHead(f, user), [raise]);
    RunStep(Run(Begin(db), PartnerHead(f, user)), raise, []);
    assert [raise] + [] == [raise];
  }

  lemma TailKeepsShops(db: Db, f: PriceFile, user: Id)
    ensures var t, u := Run(Begin(db), PartnerProgram(f, user)), Run(Begin(db), PartnerHead(f, user)); t.db.catalog.shops == u.db.catalog.shops
  {
    var tail := MissingOr(f.goods, PartnerGoods(OrEmpty(f.goods)));
    RunAppend(Begin(db), PartnerHead(f, user), tail);
    PartnerGoodsBody(OrEmpty(f.goods));
    RunKeepsShop(Run(Begin(db), PartnerHead(f, user)), tail);
  }

  /**
   A failing `PartnerUpdate`, for every file and store.  If it fails before the deletion, product rows, products
   and orders are what they were.  Otherwise the shop's old rows and the order lines that held them are gone; the
   shop has the rows of the goods before the failing one, and that one's too if only its parameters are at
   fault; other shops' rows are as they were.
   */
  lemma PartnerFailsExactly(db: Db, f: PriceFile, user: Id) returns (i: nat)
    requires ValidCatalog(db.catalog) && Run(Begin(db), PartnerProgram(f, user)).error.Some?
    ensures PartnerDeletes(db.catalog, f, user) && f.goods.Given? ==> StopsAtGood(db.catalog, f, user, i)
    ensures var c, t, gs := db.catalog, Run(Begin(db), PartnerProgram(f, user)), OrEmpty(f.goods); var d, shop := t.db.catalog, t.regs.shop;
      if !PartnerDeletes(c, f, user) then SameRowsAndOrders(db, t.db) && d.products == c.products
      else
        && OwnShop(d, shop, f.shop.value, user)
        && ShopRows(c, d, shop, if !f.goods.Given? then [] else if OnlyParametersFail(c, f, user, i) then gs[..i] + [gs[i]] else gs[..i])
        && t.db.sales.orders == db.sales.orders && t.db.tasks == db.tasks
        && t.db.sales.lines.rows == (map l | l in db.sales.lines.rows &&
             !(db.sales.lines.rows[l].info in c.infos.rows && c.infos.rows[db.sales.lines.rows[l].info].shop == shop) :: db.sales.lines.rows[l])
  {
    i := 0;
    var c, t, u := db.catalog, Run(Begin(db), PartnerProgram(f, user)), Run(Begin(db), PartnerHead(f, user));
    if !PartnerDeletes(c, f, user) {
      HeadFailsEarly(db, f, user);
    } else {
      PartnerHeadPasses(db, f, user);
      PartnerHeadAdds(db, f, user);
      TailKeepsShops(db, f, user);
      var gs := OrEmpty(f.goods);
      if f.goods.Given? {
        i := GoodsFail(db, f, user);
        RowsOfShop(c, u.db.catalog, t.db.catalog, u.regs.shop, if OnlyParametersFail(c, f, user, i) then gs[..i] + [gs[i]] else gs[..i]);
      } else {
        NoGoodsFail(db, f, user);
        RowsOfShop(c, u.db.catalog, t.db.catalog, u.regs.shop, []);
      }
    }
  }
}
