/**
 How `load_data` ends, whether it answers Status True or False: which good it fails at, and the list
 that the shop then shows.  Unlike a killed process, a failing one never stops between two parameters.
 */
module LoadFailure {
  import opened Prelude
  import opened Tables
  import opened Orm
  import opened Programs
  import opened PriceView
  import opened LoadSuccess
  import opened LoadResult
  import opened Recovery

  // ---------- Which goods get through ----------

  ghost predicate Fit(c: Catalog, categories: set<Id>, gs: seq<Good>, k: nat)
    requires k < |gs|
  {
    Complete(gs[k]) ==> Sound(gs[k]) && Placed(c, categories, gs, k)
  }

  /** The first complete good that cannot be stored, or the number of goods. */
  ghost function FirstUnfit(c: Catalog, categories: set<Id>, gs: seq<Good>): (i: nat)
    ensures i <= |gs|
  {
    if gs == [] then 0
    else
      var m := |gs| - 1;
      var i := FirstUnfit(c, categories, gs[..m]);
      if i < m then i else if Fit(c, categories, gs, m) then |gs| else m
  }

  lemma {:induction false} UnfitIsFirst(c: Catalog, categories: set<Id>, gs: seq<Good>)
    ensures var i := FirstUnfit(c, categories, gs);
      && (forall k :: 0 <= k < i ==> Fit(c, categories, gs, k))
      && (i < |gs| ==> !Fit(c, categories, gs, i))
    decreases |gs|
  {
    if gs != [] {
      var m := |gs| - 1;
      UnfitIsFirst(c, categories, gs[..m]);
      PlacedInPrefix(c, categories, gs, m);
      forall k | 0 <= k < m ensures Fit(c, categories, gs[..m], k) <==> Fit(c, categories, gs, k) {
        assert gs[..m][k] == gs[k];
      }
    }
  }

  /** Every column but the parameters is fine. */
  predicate RowSound(g: Good) {
    Sound(g.(parameters := Missing))
  }

  /** The goods that are listed in the end: the first ones, and the failing one's row if only its parameters are bad. */
  ghost function Stored(c: Catalog, categories: set<Id>, gs: seq<Good>): seq<Good> {
    var i := FirstUnfit(c, categories, gs);
    if i < |gs| && Complete(gs[i]) && RowSound(gs[i]) && Placed(c, categories, gs, i) then gs[..i] + [Clip(gs[i], 0)]
    else gs[..i]
  }

  lemma UnfitPrefix(c: Catalog, categories: set<Id>, gs: seq<Good>)
    ensures AllPlaced(c, categories, gs[..FirstUnfit(c, categories, gs)])
  {
    var i := FirstUnfit(c, categories, gs);
    UnfitIsFirst(c, categories, gs);
    PlacedInPrefix(c, categories, gs, i);
    forall k | 0 <= k < i && Complete(gs[..i][k])
      ensures Sound(gs[..i][k]) && Placed(c, categories, gs[..i], k)
    {
      assert gs[..i][k] == gs[k] && Fit(c, categories, gs, k);
    }
  }

  // ---------- The failing good ----------

  lemma RowRuns(s: Session, g: Good)
    requires s.error.None? && ValidCatalog(s.db.catalog) && Complete(g) && s.regs.shop in s.db.catalog.shops.rows
    ensures var c, t := s.db.catalog, Run(s, RowStmts(g));
      && (t.error.None? <==> RowSound(g) && (HasProduct(c, g.name.value) || g.category.value in c.categories.rows))
      && (t.error.Some? ==>
            && t.db == s.db.(catalog := c.(products := t.db.catalog.products))
            && (!HasProduct(c, g.name.value) && g.category.value !in c.categories.rows ==> t.db == s.db)
            && (HasProduct(c, g.name.value) ==> t.db == s.db)
            && (t.db != s.db ==> c.products.next < t.db.catalog.products.next)
            && forall p :: p in c.products.rows ==> p in t.db.catalog.products.rows && t.db.catalog.products.rows[p] == c.products.rows[p])
  {
    var one, two := RowStmts(g)[0], RowStmts(g)[1];
    assert RowStmts(g) == [one] + [two] && [two] == [two] + [];
    ProductRuns(s, g.name.value, g.category.value);
    RunStep(s, one, [two]);
    var s1 := Exec(s, one);
    if s1.error.None? {
      OfferRuns(s1, g);
      RunStep(s1, two, []);
    }
  }

  /** Its row, of a good whose parameters are null. */
  lemma RowShown(s: Session, a: Abs, g: Good)
    requires s.error.None? && ValidCatalog(s.db.catalog) && Match(s.db.catalog, s.regs, a)
    requires Complete(g) && RowSound(g) && Run(s, RowStmts(g)).error.None?
    ensures var d := Run(s, RowStmts(g)).db.catalog;
      Of(ViewOf(d), a.shop) == ListGood(Of(a.view, a.shop), Clip(g, 0)) && Elsewhere(a.view, ViewOf(d), a.shop)
  {
    var p := RowStmts(g);
    LoadGoodRest(g);
    assert forall st :: st in p ==> st in LoadGood(g);
    RunRefines(s, a, p);
    assert LoadParameters([]) == [] && p + [] == p && RowStmts(Clip(g, 0)) == p;
    AbsSoundGood(a, Clip(g, 0), []);
  }

  /** A good at which the import fails shows nothing, or its row without parameters of its own. */
  lemma GoodStops(s: Session, a: Abs, g: Good)
    requires s.error.None? && ValidCatalog(s.db.catalog) && Match(s.db.catalog, s.regs, a) && s.regs.shop in s.db.catalog.shops.rows
    requires Complete(g) && Run(s, LoadGood(g)).error.Some?
    ensures var c, d := s.db.catalog, Run(s, LoadGood(g)).db.catalog;
      if RowSound(g) && (HasProduct(c, g.name.value) || g.category.value in c.categories.rows) then
        Of(ViewOf(d), a.shop) == ListGood(Of(a.view, a.shop), Clip(g, 0)) && Elsewhere(a.view, ViewOf(d), a.shop)
      else ViewOf(d) == a.view
  {
    var p, field := RowStmts(g), LoadParameterField(g.parameters);
    assert LoadGood(g) == p + field;
    RunAppend(s, p, field);
    RowRuns(s, g);
    GoodRuns(s, g);
    var t := Run(s, p);
    if t.error.None? {
      assert g.parameters.Null?;
      RunStep(t, Raise(AttributeError), []);
      assert field == [Raise(AttributeError)] + [];
      RowShown(s, a, g);
    } else {
      ProductsGrow(s.db.catalog, t.db.catalog);
    }
  }

  // ---------- The goods loop ----------

  lemma SplitGoods(gs: seq<Good>, i: nat)
    requires i < |gs|
    ensures LoadGoods(gs) == LoadGoods(gs[..i]) + (LoadGood(gs[i]) + LoadGoods(gs[i+1..]))
  {
    assert gs == gs[..i] + gs[i..] && gs[i..][1..] == gs[i+1..];
    LoadGoodsAppend(gs[..i], gs[i..]);
  }

  lemma GoodsBefore(s: Session, gs: seq<Good>)
    requires s.error.None? && ValidCatalog(s.db.catalog) && s.regs.shop in s.db.catalog.shops.rows
    ensures var c := s.db.catalog; var i := FirstUnfit(c, c.categories.rows.Keys, gs); var u := Run(s, LoadGoods(gs[..i]));
      && AllPlaced(c, c.categories.rows.Keys, gs[..i]) && AllSound(gs[..i]) && u.error.None? && GoodsDone(s, u, gs[..i])
  {
    var c, keys := s.db.catalog, s.db.catalog.categories.rows.Keys;
    UnfitPrefix(c, keys, gs);
    GoodsRun(s, gs[..FirstUnfit(c, keys, gs)]);
  }

  /** Whether a good is placed shows in the store that the goods before it leave. */
  lemma PlacedNow(s: Session, u: Session, gs: seq<Good>, i: nat)
    requires i < |gs| && Complete(gs[i]) && AllPlaced(s.db.catalog, s.db.catalog.categories.rows.Keys, gs[..i])
    requires GoodsDone(s, u, gs[..i])
    ensures Placed(s.db.catalog, s.db.catalog.categories.rows.Keys, gs, i) <==>
      HasProduct(u.db.catalog, gs[i].name.value) || gs[i].category.value in u.db.catalog.categories.rows
  {
    var c, keys, hs, name := s.db.catalog, s.db.catalog.categories.rows.Keys, gs[..i+1], gs[i].name.value;
    assert hs[..i] == gs[..i] && hs[i] == gs[i];
    LastPlaced(c, keys, hs);
    PlacedInPrefix(c, keys, gs, i + 1);
    assert forall j :: 0 <= j < i ==> hs[j] == gs[..i][j];
    assert HasProduct(u.db.catalog, name) <==> HasProduct(c, name) || exists j :: 0 <= j < |gs[..i]| && Names(gs[..i][j], name);
    if j :| 0 <= j < |gs[..i]| && Names(gs[..i][j], name) { assert Names(hs[j], name); }
    if j :| 0 <= j < i && Names(hs[j], name) { assert Names(gs[..i][j], name); }
  }

  /** The run stops at the failing good. */
  lemma StopsAt(s: Session, gs: seq<Good>)
    requires s.error.None? && ValidCatalog(s.db.catalog) && s.regs.shop in s.db.catalog.shops.rows
    requires FirstUnfit(s.db.catalog, s.db.catalog.categories.rows.Keys, gs) < |gs|
    ensures var c := s.db.catalog; var i := FirstUnfit(c, c.categories.rows.Keys, gs); var u := Run(s, LoadGoods(gs[..i]));
      && Complete(gs[i]) && Run(s, LoadGoods(gs)) == Run(u, LoadGood(gs[i])) && Run(u, LoadGood(gs[i])).error.Some?
  {
    var c, keys := s.db.catalog, s.db.catalog.categories.rows.Keys;
    var i := FirstUnfit(c, keys, gs);
    var u, g := Run(s, LoadGoods(gs[..i])), gs[i];
    UnfitIsFirst(c, keys, gs);
    GoodsBefore(s, gs);
    PlacedNow(s, u, gs, i);
    GoodRuns(u, g);
    SplitGoods(gs, i);
    RunAppend(s, LoadGoods(gs[..i]), LoadGood(g) + LoadGoods(gs[i+1..]));
    RunAppend(u, LoadGood(g), LoadGoods(gs[i+1..]));
  }

  /** The goods before the failing one are listed. */
  lemma ListedBefore(s: Session, a: Abs, init: seq<Good>)
    requires s.error.None? && ValidCatalog(s.db.catalog) && Match(s.db.catalog, s.regs, a)
    requires Of(a.view, a.shop) == imap[] && AllSound(init) && Run(s, LoadGoods(init)).error.None?
    ensures var u, b := Run(s, LoadGoods(init)), AbsRun(a, LoadGoods(init));
      && Match(u.db.catalog, u.regs, b) && b.shop == a.shop && Of(b.view, a.shop) == Listing(init) && Elsewhere(a.view, b.view, a.shop)
  {
    LoadGoodsRest(init);
    RunRefines(s, a, LoadGoods(init));
    AbsGoods(a, init);
  }

  lemma StillElsewhere(v: View, w: View, x: View, shop: Id)
    requires Elsewhere(v, w, shop) && Elsewhere(w, x, shop)
    ensures Elsewhere(v, x, shop)
  {
    forall t | t != shop ensures Of(v, t) == Of(x, t) {
      assert Of(v, t) == Of(w, t) == Of(x, t);
    }
  }

  lemma GoodsEnd(s: Session, a: Abs, gs: seq<Good>)
    requires s.error.None? && ValidCatalog(s.db.catalog) && Match(s.db.catalog, s.regs, a) && s.regs.shop in s.db.catalog.shops.rows
    requires Of(a.view, a.shop) == imap[]
    ensures var c, d := s.db.catalog, Run(s, LoadGoods(gs)).db.catalog;
      && Of(ViewOf(d), a.shop) == Listing(Stored(c, c.categories.rows.Keys, gs)) && Elsewhere(a.view, ViewOf(d), a.shop)
      && (Run(s, LoadGoods(gs)).error.None? <==> FirstUnfit(c, c.categories.rows.Keys, gs) == |gs|)
  {
    var c, keys := s.db.catalog, s.db.catalog.categories.rows.Keys;
    var i := FirstUnfit(c, keys, gs);
    var init := gs[..i];
    GoodsBefore(s, gs);
    ListedBefore(s, a, init);
    if i < |gs| {
      var u, b := Run(s, LoadGoods(init)), AbsRun(a, LoadGoods(init));
      StopsAt(s, gs);
      PlacedNow(s, u, gs, i);
      GoodStops(u, b, gs[i]);
      StoredStops(c, keys, gs);
      StillElsewhere(a.view, b.view, ViewOf(Run(u, LoadGood(gs[i])).db.catalog), a.shop);
    } else {
      assert gs[..i] == gs;
    }
  }

  lemma StoredStops(c: Catalog, categories: set<Id>, gs: seq<Good>)
    requires FirstUnfit(c, categories, gs) < |gs| && Complete(gs[FirstUnfit(c, categories, gs)])
    ensures var i := FirstUnfit(c, categories, gs);
      Listing(Stored(c, categories, gs)) ==
        if RowSound(gs[i]) && Placed(c, categories, gs, i) then ListGood(Listing(gs[..i]), Clip(gs[i], 0)) else Listing(gs[..i])
  {
    var i := FirstUnfit(c, categories, gs);
    assert (gs[..i] + [Clip(gs[i], 0)])[..i] == gs[..i];
  }

  // ---------- The whole import ----------

  /** No deletion takes place: the file is rejected, or its shop or its categories cannot be opened. */
  ghost predicate HeadFails(c: Catalog, f: PriceFile, user: Option<Id>) {
    !Formed(f) || f.shop.Null? || f.categories.Null? || !ShopOpens(c, f.shop.value, TruthyUser(user))
  }

  /** The goods that a run of `load_data` lists when it is over. */
  ghost function Listed(c: Catalog, f: PriceFile): seq<Good> {
    if f.goods.Given? && f.categories.Given? then Stored(c, CategoriesAfter(c, f.categories.value), f.goods.value) else []
  }

  lemma {:induction false} SameUnfit(c: Catalog, d: Catalog, categories: set<Id>, gs: seq<Good>)
    requires c.products == d.products
    ensures FirstUnfit(c, categories, gs) == FirstUnfit(d, categories, gs)
    decreases |gs|
  {
    if gs != [] {
      SameUnfit(c, d, categories, gs[..|gs|-1]);
      assert Fit(c, categories, gs, |gs| - 1) <==> Fit(d, categories, gs, |gs| - 1);
    }
  }

  lemma SameStored(c: Catalog, d: Catalog, categories: set<Id>, gs: seq<Good>)
    requires c.products == d.products
    ensures Stored(c, categories, gs) == Stored(d, categories, gs)
  {
    SameUnfit(c, d, categories, gs);
    var i := FirstUnfit(c, categories, gs);
    if i < |gs| && Complete(gs[i]) { assert Placed(c, categories, gs, i) <==> Placed(d, categories, gs, i); }
  }

  /** A run whose head fails writes the shop row at most, and nothing that is visible. */
  lemma HeadStops(db: Db, f: PriceFile, user: Option<Id>)
    requires ValidCatalog(db.catalog) && HeadFails(db.catalog, f, user)
    ensures var t := Run(Begin(db), LoadProgram(f, user));
      && t.error.Some? && t.db == db.(catalog := db.catalog.(shops := t.db.catalog.shops))
  {
    if !Formed(f) {
      RejectedAtOnce(db, f, user, 1);
      assert LoadProgram(f, user)[..1] == LoadProgram(f, user);
    } else {
      var s, one, rest := Begin(db), OpenShop(f.shop.Get(), TruthyUser(user)), LoadMiddle(f) + ([ClearOffers] + LoadTail(f));
      assert LoadProgram(f, user) == [one] + rest;
      RunStep(s, one, rest);
      if f.shop.Given? { OneShop(db.catalog, f.shop.value); }
      var s1 := Exec(s, one);
      if s1.error.None? {
        assert rest == [Raise(TypeError)] + ([ClearOffers] + LoadTail(f));
        RunStep(s1, Raise(TypeError), [ClearOffers] + LoadTail(f));
      }
    }
  }

  /** Once the head is done the goods are on their own. */
  lemma AfterHeadRuns(db: Db, f: PriceFile, user: Option<Id>)
    requires ValidCatalog(db.catalog) && !HeadFails(db.catalog, f, user)
    ensures var u := Run(Begin(db), LoadHead(f, user));
      && u.error.None? && ValidCatalog(u.db.catalog) && u.regs.shop in u.db.catalog.shops.rows
      && Given(u.db.catalog.shops.rows[u.regs.shop].name) == f.shop
      && u.db.catalog.categories.rows.Keys == CategoriesAfter(db.catalog, f.categories.value) && u.db.catalog.products == db.catalog.products
      && Run(Begin(db), LoadProgram(f, user)) == Run(u, LoadTail(f))
      && Run(u, LoadTail(f)).regs.shop == u.regs.shop && Run(u, LoadTail(f)).db.catalog.shops == u.db.catalog.shops
  {
    HeadRuns(db, f, user);
    RunAppend(Begin(db), LoadHead(f, user), LoadTail(f));
    LoadTailRest(f);
    RunKeepsShop(Run(Begin(db), LoadHead(f, user)), LoadTail(f));
  }

  /**
   How `load_data` ends, in every case.  If its head fails, all lists are what they were.  Otherwise the
   other shops' lists are, and the shop's is that of the goods before the first that cannot be stored,
   with that good's row, but none of its parameters, if the parameters are what is wrong with it.
   */
  lemma LoadEnds(db: Db, f: PriceFile, user: Option<Id>)
    requires ValidCatalog(db.catalog)
    ensures var c, t := db.catalog, Run(Begin(db), LoadProgram(f, user)); var d, shop := t.db.catalog, t.regs.shop;
      && ValidCatalog(d)
      && (HeadFails(c, f, user) ==> t.error.Some? && forall x :: PriceList(d, x) == PriceList(c, x))
      && (!HeadFails(c, f, user) ==>
            && shop in d.shops.rows && Given(d.shops.rows[shop].name) == f.shop
            && PriceList(d, shop) == Listing(Listed(c, f))
            && (forall other | other != shop :: PriceList(d, other) == PriceList(c, other))
            && (t.error.None? <==>
                  f.goods.Given? && FirstUnfit(c, CategoriesAfter(c, f.categories.value), f.goods.value) == |f.goods.value|))
  {
    LoadProgramStmts(f, user);
    LoadKeeps(Begin(db), LoadProgram(f, user));
    if HeadFails(db.catalog, f, user) {
      HeadStops(db, f, user);
      var d := Run(Begin(db), LoadProgram(f, user)).db.catalog;
      assert forall x, e :: OfferAt(d, x, e) == OfferAt(db.catalog, x, e);
    } else {
      TailEnds(db, f, user);
    }
  }

  /** The rest of the program, from a store whose shop lists nothing. */
  lemma TailLists(u: Session, a: Abs, f: PriceFile)
    requires u.error.None? && ValidCatalog(u.db.catalog) && Match(u.db.catalog, u.regs, a) && u.regs.shop in u.db.catalog.shops.rows
    requires Of(a.view, a.shop) == imap[]
    ensures var c, t := u.db.catalog, Run(u, LoadTail(f)); var d, keys := t.db.catalog, c.categories.rows.Keys;
      && Of(ViewOf(d), a.shop) == Listing(if f.goods.Given? then Stored(c, keys, f.goods.value) else [])
      && Elsewhere(a.view, ViewOf(d), a.shop)
      && (t.error.None? <==> f.goods.Given? && FirstUnfit(c, keys, f.goods.value) == |f.goods.value|)
  {
    if f.goods.Given? {
      GoodsEnd(u, a, f.goods.value);
    } else {
      RunStep(u, Raise(TypeError), []);
      assert LoadTail(f) == [Raise(TypeError)] + [];
    }
  }

  lemma TailEnds(db: Db, f: PriceFile, user: Option<Id>)
    requires ValidCatalog(db.catalog) && !HeadFails(db.catalog, f, user)
    ensures var c, t := db.catalog, Run(Begin(db), LoadProgram(f, user)); var d, shop := t.db.catalog, t.regs.shop;
      && shop in d.shops.rows && Given(d.shops.rows[shop].name) == f.shop
      && PriceList(d, shop) == Listing(Listed(c, f))
      && (forall other | other != shop :: PriceList(d, other) == PriceList(c, other))
      && (t.error.None? <==>
            f.goods.Given? && FirstUnfit(c, CategoriesAfter(c, f.categories.value), f.goods.value) == |f.goods.value|)
  {
    AfterHeadRuns(db, f, user);
    var u := Run(Begin(db), LoadHead(f, user));
    var a := HeadRefines(db, f, user);
    TailLists(u, a, f);
    if f.goods.Given? {
      SameUnfit(u.db.catalog, db.catalog, CategoriesAfter(db.catalog, f.categories.value), f.goods.value);
      SameStored(u.db.catalog, db.catalog, CategoriesAfter(db.catalog, f.categories.value), f.goods.value);
    }
    var d := Run(u, LoadTail(f)).db.catalog;
    StillElsewhere(ViewOf(db.catalog), a.view, ViewOf(d), u.regs.shop);
    ListsFromViews(db.catalog, d, u.regs.shop);
  }

  /**
   Status False: the list is that of the goods before the failing one, at most with the failing one's row
   and no new parameter; and the failing one is the first complete good that is unsound or unplaced.
   */
  lemma FailedLoad(db: Db, f: PriceFile, user: Option<Id>)
    requires ValidCatalog(db.catalog) && Run(Begin(db), LoadProgram(f, user)).error.Some?
    ensures var c, t := db.catalog, Run(Begin(db), LoadProgram(f, user)); var d, shop := t.db.catalog, t.regs.shop;
      && ValidCatalog(d)
      && (forall other | other != shop :: PriceList(d, other) == PriceList(c, other))
      && if HeadFails(c, f, user) then PriceList(d, shop) == PriceList(c, shop)
         else if !f.goods.Given? then PriceList(d, shop) == Listing([])
         else
           var gs, categories := f.goods.value, CategoriesAfter(c, f.categories.value); var i := FirstUnfit(c, categories, gs);
           && i < |gs| && Complete(gs[i]) && !(Sound(gs[i]) && Placed(c, categories, gs, i)) && AllPlaced(c, categories, gs[..i])
           && PriceList(d, shop) == Listing(
                if gs[i].parameters.Null? && RowSound(gs[i]) && Placed(c, categories, gs, i) then gs[..i] + [Clip(gs[i], 0)]
                else gs[..i])
  {
    LoadEnds(db, f, user);
    if !HeadFails(db.catalog, f, user) && f.goods.Given? {
      UnfitIsFirst(db.catalog, CategoriesAfter(db.catalog, f.categories.value), f.goods.value);
      UnfitPrefix(db.catalog, CategoriesAfter(db.catalog, f.categories.value), f.goods.value);
    }
  }
}
