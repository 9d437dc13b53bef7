/**
 Nothing rolls `load_data` back.  A failing run leaves the database identical exactly when it had nothing
 to write before it failed, which can be read off the file and the store.
 */
module NoRollback {
  import opened Prelude
  import opened Tables
  import opened Orm
  import opened Programs
  import opened LoadSuccess
  import opened LoadResult
  import opened Recovery
  import opened LoadShared
  import opened LoadFailure

  // ---------- The condition ----------

  ghost predicate AllLinked(c: Catalog, shop: Id, es: seq<CategoryEntry>) {
    forall e :: e in es && Accepted(e) ==> e.id.value in c.categories.rows && (e.id.value, shop) in c.links
  }

  /** The position of the first complete good, or the number of goods. */
  function FirstComplete(gs: seq<Good>): (k: nat)
    ensures k <= |gs| && (k < |gs| ==> Complete(gs[k])) && forall j :: 0 <= j < k ==> !Complete(gs[j])
  {
    if gs == [] then 0 else if Complete(gs[0]) then 0 else 1 + FirstComplete(gs[1..])
  }

  /** Its product is known and its columns are rejected, or its product and its category are both unknown. */
  ghost predicate FailsCleanly(c: Catalog, g: Good)
    requires Complete(g)
  {
    if HasProduct(c, g.name.value) then !RowSound(g) else g.category.value !in c.categories.rows
  }

  /** There is nothing to write between the opening of the shop and the failure. */
  ghost predicate NothingToWrite(c: Catalog, f: PriceFile, shop: Id) {
    f.categories.Given? ==>
      && AllLinked(c, shop, f.categories.value) && InfosOf(c.infos.rows, shop) == {}
      && (f.goods.Given? ==>
            var k := FirstComplete(f.goods.value); k < |f.goods.value| ==> FailsCleanly(c, f.goods.value[k]))
  }

  ghost predicate LeavesNoTrace(c: Catalog, f: PriceFile, user: Option<Id>) {
    || !Formed(f) || f.shop.Null? || !ShopOpens(c, f.shop.value, TruthyUser(user))
    || exists shop ::
         shop in ShopsNamed(c.shops.rows, f.shop.value) && NothingToWrite(c, f, shop)
  }

  // ---------- What cannot be undone by the rest of an import ----------

  /** Ids are never handed out twice, and a row that is gone is gone. */
  lemma {:induction false} RestOnlyAdds(s: Session, p: seq<Stmt>)
    requires LoadRest(p) && FreshCatalog(s.db.catalog)
    ensures var c, d := s.db.catalog, Run(s, p).db.catalog;
      && c.infos.next <= d.infos.next && c.products.next <= d.products.next
      && forall i :: i < c.infos.next && i !in c.infos.rows ==> i !in d.infos.rows
    decreases |p|
  {
    if p != [] && s.error.None? {
      assert p[0] in p;
      RestOnlyAdd(s, p[0]);
      RestOnlyAdds(Exec(s, p[0]), p[1..]);
    }
  }

  lemma RestOnlyAdd(s: Session, st: Stmt)
    requires LoadStmt(st) && !st.OpenShop? && !st.ClearOffers? && FreshCatalog(s.db.catalog)
    ensures var c, d := s.db.catalog, Exec(s, st).db.catalog;
      && FreshCatalog(d) && c.infos.next <= d.infos.next && c.products.next <= d.products.next
      && forall i :: i < c.infos.next && i !in c.infos.rows ==> i !in d.infos.rows
  {
    var c := s.db.catalog;
    if st.PutOffer? && Lookup(InfosAt(c.infos.rows, s.regs.shop, st.ext)).One? {
      assert Lookup(InfosAt(c.infos.rows, s.regs.shop, st.ext)).id in InfosAt(c.infos.rows, s.regs.shop, st.ext);
    }
    if st.PutValue? && Lookup(ValuesAt(c.values.rows, s.regs.info, s.regs.parameter)).One? {
      assert Lookup(ValuesAt(c.values.rows, s.regs.info, s.regs.parameter)).id in ValuesAt(c.values.rows, s.regs.info, s.regs.parameter);
    }
  }

  // ---------- Categories and deletion ----------

  lemma {:induction false} LinkedCategoriesRun(s: Session, es: seq<CategoryEntry>)
    requires s.error.None? && AllLinked(s.db.catalog, s.regs.shop, es) && s.regs.shop in s.db.catalog.shops.rows
    ensures var t := Run(s, LoadCategories(es)); t.error.None? && t.db == s.db && t.regs.shop == s.regs.shop
    decreases |es|
  {
    if es != [] {
      var e, c := es[0], s.db.catalog;
      assert es == [e] + es[1..];
      if Accepted(e) {
        var one, rest := OpenCategory(Some(e.id.value), Some(e.name.value)), LoadCategories(es[1..]);
        assert LoadCategories(es) == [one] + ([LinkCategory] + rest);
        RunStep(s, one, [LinkCategory] + rest);
        var s1 := Exec(s, one);
        RunStep(s1, LinkCategory, rest);
        assert forall x :: x in c.links + {(e.id.value, s.regs.shop)} <==> x in c.links;
        assert c.links + {(e.id.value, s.regs.shop)} == c.links;
        LinkedCategoriesRun(Exec(s1, LinkCategory), es[1..]);
      } else {
        assert LoadCategories(es) == LoadCategories(es[1..]);
        LinkedCategoriesRun(s, es[1..]);
      }
    }
  }

  lemma NothingToClear(s: Session)
    requires s.error.None? && InfosOf(s.db.catalog.infos.rows, s.regs.shop) == {}
    ensures Exec(s, ClearOffers) == s
  {
    var c, sales := s.db.catalog, s.db.sales;
    var d := ClearShop(c, s.regs.shop);
    assert d.infos.rows == c.infos.rows && d.values.rows == c.values.rows;
    assert DropLines(sales, InfosOf(c.infos.rows, s.regs.shop)).lines.rows == sales.lines.rows;
  }

  /** With everything linked and nothing listed, the head writes nothing. */
  lemma CleanHead(db: Db, f: PriceFile, user: Option<Id>, shop: Id)
    requires ValidCatalog(db.catalog) && !HeadFails(db.catalog, f, user) && shop in ShopsNamed(db.catalog.shops.rows, f.shop.value)
    requires AllLinked(db.catalog, shop, f.categories.value) && InfosOf(db.catalog.infos.rows, shop) == {}
    ensures var u := Run(Begin(db), LoadHead(f, user)); u.error.None? && u.db == db && u.regs.shop == shop
  {
    var s, one, es := Begin(db), OpenShop(f.shop.Get(), TruthyUser(user)), f.categories.value;
    assert LoadHead(f, user) == [one] + (LoadCategories(es) + [ClearOffers]);
    RunStep(s, one, LoadCategories(es) + [ClearOffers]);
    OneShop(db.catalog, f.shop.value);
    var s1 := Exec(s, one);
    assert s1 == s.(regs := s.regs.(shop := shop));
    RunAppend(s1, LoadCategories(es), [ClearOffers]);
    LinkedCategoriesRun(s1, es);
    var s2 := Run(s1, LoadCategories(es));
    RunStep(s2, ClearOffers, []);
    assert [ClearOffers] + [] == [ClearOffers];
    NothingToClear(s2);
  }

  /** A new category, a new link or a deleted row stays. */
  lemma HeadStays(db: Db, f: PriceFile, user: Option<Id>, shop: Id)
    requires ValidCatalog(db.catalog) && !HeadFails(db.catalog, f, user) && shop in ShopsNamed(db.catalog.shops.rows, f.shop.value)
    requires Run(Begin(db), LoadProgram(f, user)).db == db
    ensures AllLinked(db.catalog, shop, f.categories.value) && InfosOf(db.catalog.infos.rows, shop) == {}
  {
    AfterHeadRuns(db, f, user);
    HeadExactly(db, f, user);
    var c, u, es := db.catalog, Run(Begin(db), LoadHead(f, user)), f.categories.value;
    OneShop(c, f.shop.value);
    assert u.regs.shop in ShopsNamed(c.shops.rows, f.shop.value);
    LoadTailRest(f);
    GoodsLeaveShared(OrEmpty(f.goods));
    KeepsShared(u, LoadTail(f));
    forall e | e in es && Accepted(e) ensures e.id.value in c.categories.rows && (e.id.value, shop) in c.links {
      assert e.id.value in CategoriesAfter(c, es);
      assert e.id.value in c.categories.rows.Keys;
      assert (e.id.value, shop) in ListedPairs(es, shop);
    }
    NothingListed(db, f, user);
    RestOnlyAdds(u, LoadTail(f));
    assert forall i :: i in c.infos.rows && i !in u.db.catalog.infos.rows ==> i !in c.infos.rows;
    Nothing(InfosOf(c.infos.rows, shop));
  }

  /** After the head the shop's rows are gone, and their ids are used up. */
  lemma NothingListed(db: Db, f: PriceFile, user: Option<Id>)
    requires ValidCatalog(db.catalog) && !HeadFails(db.catalog, f, user)
    ensures var c, u := db.catalog, Run(Begin(db), LoadHead(f, user));
      && u.db.catalog.infos.next == c.infos.next
      && forall i :: i in InfosOf(c.infos.rows, u.regs.shop) ==> i !in u.db.catalog.infos.rows
  {
    var s, one, es := Begin(db), OpenShop(f.shop.Get(), TruthyUser(user)), f.categories.value;
    assert LoadHead(f, user) == [one] + (LoadCategories(es) + [ClearOffers]);
    RunStep(s, one, LoadCategories(es) + [ClearOffers]);
    OneShop(db.catalog, f.shop.value);
    var s1 := Exec(s, one);
    ShopKeeps(db.catalog, one.shopName, one.owner);
    if s1.db.catalog == db.catalog { assert s1.regs.shop in ShopsNamed(db.catalog.shops.rows, f.shop.value); }
    RunAppend(s1, LoadCategories(es), [ClearOffers]);
    CategoriesRun(s1, es);
    RunStep(Run(s1, LoadCategories(es)), ClearOffers, []);
    assert [ClearOffers] + [] == [ClearOffers];
  }

  // ---------- Goods ----------

  lemma {:induction false} IncompleteGoods(gs: seq<Good>)
    requires forall k :: 0 <= k < |gs| ==> !Complete(gs[k])
    ensures LoadGoods(gs) == []
    decreases |gs|
  {
    if gs != [] {
      IncompleteGoods(gs[1..]);
    }
  }

  /** Up to the first complete good there is nothing to do; then its row comes first. */
  lemma FirstRow(s: Session, gs: seq<Good>) returns (rest: seq<Stmt>)
    requires FirstComplete(gs) < |gs|
    ensures LoadRest(rest) && Run(s, LoadGoods(gs)) == Run(Run(s, RowStmts(gs[FirstComplete(gs)])), rest)
  {
    var k := FirstComplete(gs);
    var g := gs[k];
    var field, later := LoadParameterField(g.parameters), LoadGoods(gs[k+1..]);
    SplitGoods(gs, k);
    IncompleteGoods(gs[..k]);
    GoodSplits(g, later);
    rest := field + later;
    assert LoadGoods(gs) == RowStmts(g) + rest;
    RunAppend(s, RowStmts(g), rest);
    LoadGoodsRest(gs[k+1..]);
  }

  lemma GoodSplits(g: Good, later: seq<Stmt>)
    requires Complete(g)
    ensures [] + (LoadGood(g) + later) == RowStmts(g) + (LoadParameterField(g.parameters) + later)
    ensures LoadRest(LoadParameterField(g.parameters))
  {
    LoadParametersRest(OrEmpty(g.parameters));
    assert LoadGood(g) == RowStmts(g) + LoadParameterField(g.parameters);
  }

  /** A row that is not there yet is inserted. */
  lemma RowInserts(s: Session, g: Good)
    requires s.error.None? && ValidCatalog(s.db.catalog) && Complete(g) && s.regs.shop in s.db.catalog.shops.rows
    requires InfosOf(s.db.catalog.infos.rows, s.regs.shop) == {} && Run(s, RowStmts(g)).error.None?
    ensures var d := Run(s, RowStmts(g)).db.catalog; FreshCatalog(d) && s.db.catalog.infos.next < d.infos.next
  {
    var one, two := RowStmts(g)[0], RowStmts(g)[1];
    assert RowStmts(g) == [one] + [two] && [two] == [two] + [];
    ProductRuns(s, g.name.value, g.category.value);
    RunStep(s, one, [two]);
    var s1 := Exec(s, one);
    OfferRuns(s1, g);
    RunStep(s1, two, []);
    assert forall i :: i in InfosAt(s1.db.catalog.infos.rows, s1.regs.shop, g.id.value) ==> i in InfosOf(s.db.catalog.infos.rows, s.regs.shop);
    Nothing(InfosAt(s1.db.catalog.infos.rows, s1.regs.shop, g.id.value));
  }

  lemma {:induction false} CleanGoods(u: Session, gs: seq<Good>)
    requires u.error.None? && ValidCatalog(u.db.catalog) && u.regs.shop in u.db.catalog.shops.rows
    requires InfosOf(u.db.catalog.infos.rows, u.regs.shop) == {} && Run(u, LoadGoods(gs)).error.Some?
    ensures FirstComplete(gs) < |gs|
    ensures Run(u, LoadGoods(gs)).db == u.db <==> FailsCleanly(u.db.catalog, gs[FirstComplete(gs)])
  {
    if FirstComplete(gs) == |gs| {
      IncompleteGoods(gs);
    } else {
      var g := gs[FirstComplete(gs)];
      var rest := FirstRow(u, gs);
      RowRuns(u, g);
      var v := Run(u, RowStmts(g));
      if v.error.None? {
        RowInserts(u, g);
        RestOnlyAdds(v, rest);
      } else {
        ProductStays(u, g);
      }
    }
  }

  /** A failing row leaves a trace exactly when it has created its product. */
  lemma ProductStays(s: Session, g: Good)
    requires s.error.None? && ValidCatalog(s.db.catalog) && Complete(g) && s.regs.shop in s.db.catalog.shops.rows
    requires Run(s, RowStmts(g)).error.Some?
    ensures Run(s, RowStmts(g)).db == s.db <==> FailsCleanly(s.db.catalog, g)
  {
    var one, two, c := RowStmts(g)[0], RowStmts(g)[1], s.db.catalog;
    assert RowStmts(g) == [one] + [two] && [two] == [two] + [];
    ProductRuns(s, g.name.value, g.category.value);
    RunStep(s, one, [two]);
    var s1 := Exec(s, one);
    if s1.error.None? {
      OfferRuns(s1, g);
      RunStep(s1, two, []);
      assert !HasProduct(c, g.name.value) ==> s1.db.catalog.products.next == c.products.next + 1;
    }
  }

  // ---------- Main results ----------

  /** The database after a failing run is the one before it if and only if there was nothing to write. */
  lemma FailedLoadUnchangedExactly(db: Db, f: PriceFile, user: Option<Id>)
    requires ValidCatalog(db.catalog) && Run(Begin(db), LoadProgram(f, user)).error.Some?
    ensures Run(Begin(db), LoadProgram(f, user)).db == db <==> LeavesNoTrace(db.catalog, f, user)
  {
    var c, p := db.catalog, LoadProgram(f, user);
    PrefixShops(db, f, user, |p|);
    assert p[..|p|] == p;
    if HeadFails(c, f, user) {
      HeadStops(db, f, user);
      HeadUnchangedExactly(c, f, user, |p|);
    } else if ShopsNamed(c.shops.rows, f.shop.value) != {} {
      LoadTailUnchangedExactly(db, f, user, Any(ShopsNamed(c.shops.rows, f.shop.value)));
    }
  }

  lemma HeadUnchangedExactly(c: Catalog, f: PriceFile, user: Option<Id>, k: nat)
    requires HeadFails(c, f, user) && 0 < k
    ensures ShopsAfter(c, f, user, k) == c.shops <==> LeavesNoTrace(c, f, user)
  {
    if Formed(f) && f.shop.Given? && ShopOpens(c, f.shop.value, TruthyUser(user)) {
      var named := ShopsNamed(c.shops.rows, f.shop.value);
      if named != {} {
        var shop := Any(named);
        assert NothingToWrite(c, f, shop);
      } else {
        assert forall shop :: shop !in ShopsNamed(c.shops.rows, f.shop.value);
        assert ShopsAfter(c, f, user, k).next == c.shops.next + 1;
      }
    }
  }

  lemma LoadTailUnchangedExactly(db: Db, f: PriceFile, user: Option<Id>, shop: Id)
    requires ValidCatalog(db.catalog) && !HeadFails(db.catalog, f, user) && shop in ShopsNamed(db.catalog.shops.rows, f.shop.value)
    requires Run(Begin(db), LoadProgram(f, user)).error.Some?
    ensures Run(Begin(db), LoadProgram(f, user)).db == db <==> NothingToWrite(db.catalog, f, shop)
    ensures forall other :: other in ShopsNamed(db.catalog.shops.rows, f.shop.value) ==> other == shop
  {
    var c := db.catalog;
    AfterHeadRuns(db, f, user);
    var u := Run(Begin(db), LoadHead(f, user));
    if AllLinked(c, shop, f.categories.value) && InfosOf(c.infos.rows, shop) == {} {
      CleanHead(db, f, user, shop);
      if f.goods.Given? {
        CleanGoods(u, f.goods.value);
      } else {
        RunStep(u, Raise(TypeError), []);
        assert LoadTail(f) == [Raise(TypeError)] + [];
      }
    } else if Run(Begin(db), LoadProgram(f, user)).db == db {
      HeadStays(db, f, user, shop);
    }
  }

  /** An input for which a failed import has saved something: the shop, although the goods are null. */
  lemma FailureSaves()
    ensures var f := PriceFile(Given("A"), Given([]), Null); var t := Run(Begin(EMPTY_DB), LoadProgram(f, None));
      t.error.Some? && t.db != EMPTY_DB
  {
    var f := PriceFile(Given("A"), Given([]), Null);
    LoadSucceedsExactly(EMPTY_DB, f, None);
    FailedLoadUnchangedExactly(EMPTY_DB, f, None);
    Nothing(ShopsNamed(EMPTY_DB.catalog.shops.rows, "A"));
  }
}
