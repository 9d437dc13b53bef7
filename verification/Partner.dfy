/**
 The reference importer `PartnerUpdate` against `load_data`: what it publishes, and for which of the files
 that it accepts both publish the same list.
 */
module Partner {
  import opened Prelude
  import opened Tables
  import opened Orm
  import opened Programs
  import opened PriceView
  import opened LoadSuccess
  import opened LoadResult
  import opened ListingMeaning
  import Recovery
  import opened LoadFailure
  import opened ImportAgain
  import opened ImportSettles
  import opened LoadThenImport
  import opened PartnerSuccess

  predicate DistinctIds(gs: seq<Good>) {
    forall i, j :: 0 <= i < j < |gs| ==> gs[i].id != gs[j].id
  }

  /** What an accepted good must have, wherever its category is. */
  predicate Usable(g: Good) {
    g.name.Given? && g.category.Given? && PartnerSuccess.RowFits(g) && g.parameters.Given? && NoNulls(g.parameters.value)
  }

  // ---------- Reference definition ----------

  /** The offer under an accepted good: every parameter is shown, falsy or not. */
  ghost function PartnerOffer(g: Good): Offer
    requires Usable(g)
  {
    Offer(g.name.value, g.model.value, g.price.value, g.rrc.value, g.quantity.value, MergeAll(NO_PARAMETERS, g.parameters.value))
  }

  /** One offer per good; zero prices and stocks are listed, too. */
  ghost function PartnerListing(gs: seq<Good>): Prices
    requires forall g :: g in gs ==> Usable(g)
  {
    if gs == [] then imap[]
    else
      assert gs[|gs|-1] in gs && forall g :: g in gs[..|gs|-1] ==> g in gs;
      assert Usable(gs[|gs|-1]);
      PartnerListing(gs[..|gs|-1])[gs[|gs|-1].id.value := PartnerOffer(gs[|gs|-1])]
  }

  // ---------- Concatenation ----------

  lemma {:induction false} PartnerGoodsAppend(gs: seq<Good>, hs: seq<Good>)
    ensures PartnerGoods(gs + hs) == PartnerGoods(gs) + PartnerGoods(hs)
    decreases |gs|
  {
    if gs == [] {
      assert gs + hs == hs;
    } else {
      assert (gs + hs)[1..] == gs[1..] + hs;
      PartnerGoodsAppend(gs[1..], hs);
    }
  }

  lemma PartnerGoodsSnoc(gs: seq<Good>)
    requires gs != []
    ensures PartnerGoods(gs) == PartnerGoods(gs[..|gs|-1]) + PartnerGood(gs[|gs|-1])
  {
    var last := [gs[|gs|-1]];
    assert gs == gs[..|gs|-1] + last;
    PartnerGoodsAppend(gs[..|gs|-1], last);
    assert PartnerGoods(last) == PartnerGood(gs[|gs|-1]);
  }

  // ---------- Abstract effect ----------

  lemma AbsPartnerParameter(a: Abs, p: (string, Scalar))
    requires a.key in a.view && p.1.Scalar?
    ensures var b, o := AbsExec(AbsExec(a, OpenParameter(p.0)), AddValue(p.1.Nullable())), a.view[a.key];
      b.shop == a.shop && b.key == a.key && b.view == a.view[a.key := o.(parameters := o.parameters[p.0 := p.1.Str()])]
  {}

  lemma {:induction false} AbsPartnerParameters(a: Abs, ps: seq<(string, Scalar)>)
    requires a.key in a.view && NoNulls(ps)
    ensures var b, o := AbsRun(a, PartnerParameters(ps)), a.view[a.key];
      b.shop == a.shop && b.key == a.key && b.view == a.view[a.key := o.(parameters := MergeAll(o.parameters, ps))]
    decreases |ps|
  {
    if ps == [] {
      assert a.view[a.key := a.view[a.key]] == a.view;
    } else {
      assert ps[0] in ps && forall p :: p in ps[1..] ==> p in ps;
      var one, two, rest := OpenParameter(ps[0].0), AddValue(ps[0].1.Nullable()), PartnerParameters(ps[1..]);
      assert PartnerParameters(ps) == [one] + ([two] + rest);
      AbsStep(a, one, [two] + rest);
      AbsStep(AbsExec(a, one), two, rest);
      AbsPartnerParameter(a, ps[0]);
      var b, o := AbsExec(AbsExec(a, one), two), a.view[a.key];
      AbsPartnerParameters(b, ps[1..]);
      MergeAllCons(o.parameters, ps);
      Overwrite(a.view, a.key, b.view[a.key], o.(parameters := MergeAll(o.parameters, ps)));
    }
  }

  lemma {:induction false} AbsPartnerCategories(a: Abs, es: seq<CategoryEntry>)
    ensures AbsRun(a, PartnerCategories(es)) == a
    decreases |es|
  {
    if es != [] {
      AbsRunAppend(a, PartnerCategory(es[0]), PartnerCategories(es[1..]));
      AbsPartnerCategories(a, es[1..]);
      var p := PartnerCategory(es[0]);
      if |p| == 1 {
        AbsStep(a, p[0], []);
        assert p == [p[0]] + [];
      } else {
        AbsStep(a, p[0], [p[1]]);
        AbsStep(a, p[1], []);
        assert p == [p[0]] + [p[1]] && [p[1]] == [p[1]] + [];
      }
    }
  }

  lemma {:induction false} PartnerParametersSafe(ps: seq<(string, Scalar)>)
    ensures SafeBody(PartnerParameters(ps))
    ensures forall st :: st in PartnerParameters(ps) ==> st.OpenParameter? || st.AddValue?
    decreases |ps|
  {
    if ps != [] {
      PartnerParametersSafe(ps[1..]);
    }
  }

  lemma {:induction false} PartnerCategoriesSafe(es: seq<CategoryEntry>)
    ensures SafeBody(PartnerCategories(es))
    decreases |es|
  {
    if es != [] {
      PartnerCategoriesSafe(es[1..]);
    }
  }

  lemma {:induction false} PartnerGoodsBody(gs: seq<Good>)
    ensures forall st :: st in PartnerGoods(gs) ==> BodyStmt(st)
    decreases |gs|
  {
    if gs != [] {
      PartnerParametersSafe(OrEmpty(gs[0].parameters));
      PartnerGoodsBody(gs[1..]);
    }
  }

  // ---------- One good ----------

  ghost predicate Linked(s: Session, a: Abs) {
    s.error.None? && Core(s.db.catalog) && Match(s.db.catalog, s.regs, a)
  }

  lemma Unlisted(c: Catalog, r: Regs, a: Abs, ext: int)
    requires Core(c) && Match(c, r, a) && ext !in Of(a.view, a.shop)
    ensures InfosAt(c.infos.rows, r.shop, ext) == {}
  {
    OneOffer(c, r.shop, ext);
    assert (a.shop, ext) !in a.view;
    assert OfferAt(c, r.shop, ext).None?;
  }

  lemma AddOfferRan(s: Session, a: Abs, g: Good)
    requires Linked(s, a) && g.id.Given? && g.id.value !in Of(a.view, a.shop) && Exec(s, AddOffer(NewOffer(g))).error.None?
    ensures Linked(Exec(s, AddOffer(NewOffer(g))), AbsExec(a, AddOffer(NewOffer(g))))
  {
    Unlisted(s.db.catalog, s.regs, a, g.id.value);
    ExecRefines(s, a, AddOffer(NewOffer(g)));
  }

  lemma ExactProductLinked(s: Session, a: Abs, st: Stmt)
    requires Linked(s, a) && st.OpenExactProduct? && Exec(s, st).error.None?
    ensures Linked(Exec(s, st), AbsExec(a, st)) && AbsExec(a, st).view == a.view && AbsExec(a, st).shop == a.shop
  {
    ExecRefines(s, a, st);
  }

  /** The product and the row of a good whose id the shop does not list yet. */
  lemma PartnerRowRefines(s: Session, a: Abs, g: Good, rest: seq<Stmt>)
    requires Linked(s, a) && Usable(g) && g.id.value !in Of(a.view, a.shop)
    requires Run(s, [OpenExactProduct(g.name.Get(), g.category.Get())] + ([AddOffer(NewOffer(g))] + rest)).error.None?
    ensures var one, two := OpenExactProduct(g.name.Get(), g.category.Get()), AddOffer(NewOffer(g));
      var t := Exec(Exec(s, one), two);
      Linked(t, AbsExec(AbsExec(a, one), two)) && Run(t, rest) == Run(s, [one] + ([two] + rest))
  {
    var one, two := OpenExactProduct(g.name.Get(), g.category.Get()), AddOffer(NewOffer(g));
    RanFirst(s, one, [two] + rest);
    ExactProductLinked(s, a, one);
    RanFirst(Exec(s, one), two, rest);
    AddOfferRan(Exec(s, one), AbsExec(a, one), g);
  }

  lemma PartnerProgramOf(g: Good)
    requires Usable(g)
    ensures PartnerGood(g) ==
      [OpenExactProduct(g.name.Get(), g.category.Get())] + ([AddOffer(NewOffer(g))] + PartnerParameters(g.parameters.value))
  {}

  lemma AbsPartnerRow(a: Abs, g: Good)
    requires Usable(g)
    ensures var b := AbsExec(AbsExec(a, OpenExactProduct(g.name.Get(), g.category.Get())), AddOffer(NewOffer(g)));
      var key := (a.shop, g.id.value);
      && b.shop == a.shop && b.key == key
      && b.view == a.view[key := Offer(g.name.value, g.model.value, g.price.value, g.rrc.value, g.quantity.value, NO_PARAMETERS)]
  {}

  lemma AbsPartnerGood(a: Abs, g: Good)
    requires Usable(g)
    ensures var b := AbsRun(a, PartnerGood(g));
      b.shop == a.shop && Of(b.view, a.shop) == Of(a.view, a.shop)[g.id.value := PartnerOffer(g)] && Elsewhere(a.view, b.view, a.shop)
  {
    var one, two, rest := OpenExactProduct(g.name.Get(), g.category.Get()), AddOffer(NewOffer(g)), PartnerParameters(g.parameters.value);
    PartnerProgramOf(g);
    AbsStep(a, one, [two] + rest);
    AbsStep(AbsExec(a, one), two, rest);
    AbsPartnerRow(a, g);
    var m, key := AbsExec(AbsExec(a, one), two), (a.shop, g.id.value);
    AbsPartnerParameters(m, g.parameters.value);
    Overwrite(a.view, key, m.view[key], PartnerOffer(g));
    Written(a.view, a.view[key := PartnerOffer(g)], a.shop, g.id.value, PartnerOffer(g));
  }

  /** A good with a new id: the reference importer lists it with all its parameters. */
  lemma PartnerGoodRefines(s: Session, a: Abs, g: Good)
    requires Linked(s, a) && Run(s, PartnerGood(g)).error.None? && Usable(g) && g.id.value !in Of(a.view, a.shop)
    ensures var b := AbsRun(a, PartnerGood(g));
      && Linked(Run(s, PartnerGood(g)), b) && b.shop == a.shop
      && Of(b.view, a.shop) == Of(a.view, a.shop)[g.id.value := PartnerOffer(g)] && Elsewhere(a.view, b.view, a.shop)
  {
    var one, two, rest := OpenExactProduct(g.name.Get(), g.category.Get()), AddOffer(NewOffer(g)), PartnerParameters(g.parameters.value);
    PartnerProgramOf(g);
    PartnerRowRefines(s, a, g, rest);
    PartnerParametersSafe(g.parameters.value);
    RunRefines(Exec(Exec(s, one), two), AbsExec(AbsExec(a, one), two), rest);
    AbsStep(a, one, [two] + rest);
    AbsStep(AbsExec(a, one), two, rest);
    AbsPartnerGood(a, g);
  }

  // ---------- All goods ----------

  predicate AllUsable(gs: seq<Good>) {
    forall g :: g in gs ==> Usable(g)
  }

  lemma UsableInit(gs: seq<Good>)
    requires gs != [] && AllUsable(gs) && DistinctIds(gs)
    ensures AllUsable(gs[..|gs|-1]) && DistinctIds(gs[..|gs|-1]) && Usable(gs[|gs|-1])
  {
    assert gs[|gs|-1] in gs && forall g :: g in gs[..|gs|-1] ==> g in gs;
  }

  lemma {:induction false} PartnerListedIds(gs: seq<Good>, ext: int)
    requires AllUsable(gs) && ext in PartnerListing(gs)
    ensures exists k :: 0 <= k < |gs| && gs[k].id == Given(ext)
    decreases |gs|
  {
    var m := |gs| - 1;
    assert gs[m] in gs && forall g :: g in gs[..m] ==> g in gs;
    if gs[m].id != Given(ext) {
      PartnerListedIds(gs[..m], ext);
      var k :| 0 <= k < m && gs[..m][k].id == Given(ext);
      assert gs[k].id == Given(ext);
    }
  }

  lemma FreshId(gs: seq<Good>)
    requires gs != [] && AllUsable(gs) && DistinctIds(gs)
    ensures AllUsable(gs[..|gs|-1]) && gs[|gs|-1].id.Given? && gs[|gs|-1].id.value !in PartnerListing(gs[..|gs|-1])
  {
    UsableInit(gs);
    if gs[|gs|-1].id.value in PartnerListing(gs[..|gs|-1]) {
      PartnerListedIds(gs[..|gs|-1], gs[|gs|-1].id.value);
    }
  }

  /** The session shows exactly these goods in its shop, and elsewhere what was there before. */
  ghost predicate Shows(s: Session, before: Abs, now: Abs, gs: seq<Good>)
    requires AllUsable(gs)
  {
    && Linked(s, now) && now.shop == before.shop
    && Of(now.view, before.shop) == PartnerListing(gs) && Elsewhere(before.view, now.view, before.shop)
  }

  lemma {:induction false} PartnerGoodsRefine(s: Session, a: Abs, gs: seq<Good>)
    requires Linked(s, a) && Run(s, PartnerGoods(gs)).error.None?
    requires AllUsable(gs) && DistinctIds(gs) && Of(a.view, a.shop) == imap[]
    ensures Shows(Run(s, PartnerGoods(gs)), a, AbsRun(a, PartnerGoods(gs)), gs)
    decreases |gs|
  {
    if gs != [] {
      var init, g := gs[..|gs|-1], gs[|gs|-1];
      UsableInit(gs);
      FreshId(gs);
      PartnerGoodsSnoc(gs);
      RanHalves(s, PartnerGoods(init), PartnerGood(g));
      PartnerGoodsRefine(s, a, init);
      AbsRunAppend(a, PartnerGoods(init), PartnerGood(g));
      var now := AbsRun(a, PartnerGoods(init));
      PartnerGoodRefines(Run(s, PartnerGoods(init)), now, g);
      StillElsewhere(a.view, now.view, AbsRun(now, PartnerGood(g)).view, a.shop);
    }
  }

  // ---------- The head ----------

  lemma OpenOwnShopRefines(c: Catalog, name: Option<string>, owner: Id)
    requires ValidCatalog(c) && GetOrCreateOwnShop(c, name, owner).Ok?
    ensures var r := GetOrCreateOwnShop(c, name, owner); var d := r.catalog;
      name.Some? && Core(d) && ViewOf(d) == ViewOf(c) && r.id in d.shops.rows && d.shops.rows[r.id].name == name.value
  {
    var r := GetOrCreateOwnShop(c, name, owner);
    if r.catalog == c {
      assert r.id in ShopsNamed(c.shops.rows, name.value);
    }
    ProductsGrow(c, r.catalog);
  }

  lemma PartnerAbsClear(a: Abs, es: seq<CategoryEntry>)
    ensures var b := AbsRun(a, PartnerCategories(es) + [ClearOffers]);
      b.shop == a.shop && Of(b.view, a.shop) == imap[] && Elsewhere(a.view, b.view, a.shop)
  {
    AbsPartnerCategories(a, es);
    AbsRunAppend(a, PartnerCategories(es), [ClearOffers]);
    AbsClear(a, []);
    assert LoadCategories([]) + [ClearOffers] == [ClearOffers];
  }

  lemma PartnerClearRefines(s: Session, es: seq<CategoryEntry>) returns (a: Abs)
    requires Core(s.db.catalog) && s.error.None? && Run(s, PartnerCategories(es) + [ClearOffers]).error.None?
    ensures var c, t := s.db.catalog, Run(s, PartnerCategories(es) + [ClearOffers]);
      && Linked(t, a) && t.regs.shop == s.regs.shop && t.db.catalog.shops == c.shops
      && Of(a.view, a.shop) == imap[] && Elsewhere(ViewOf(c), a.view, a.shop)
  {
    var before, p := AbsOf(s.db.catalog, s.regs), PartnerCategories(es) + [ClearOffers];
    PartnerCategoriesSafe(es);
    RunRefines(s, before, p);
    RunKeepsShop(s, p);
    PartnerAbsClear(before, es);
    a := AbsRun(before, p);
  }

  lemma PartnerHeadRefines(db: Db, f: PriceFile, user: Id) returns (a: Abs)
    requires ValidCatalog(db.catalog) && f.shop.Given? && f.categories.Given? && Run(Begin(db), PartnerHead(f, user)).error.None?
    ensures var t := Run(Begin(db), PartnerHead(f, user)); var d := t.db.catalog;
      && Linked(t, a) && Of(a.view, a.shop) == imap[] && Elsewhere(ViewOf(db.catalog), a.view, a.shop)
      && t.regs.shop in d.shops.rows && d.shops.rows[t.regs.shop].name == f.shop.value
  {
    var s, one, es := Begin(db), OpenOwnShop(f.shop.Get(), user), f.categories.value;
    assert PartnerHead(f, user) == [one] + (PartnerCategories(es) + [ClearOffers]);
    RanFirst(s, one, PartnerCategories(es) + [ClearOffers]);
    OpenOwnShopRefines(db.catalog, one.shopName, user);
    a := PartnerClearRefines(Exec(s, one), es);
  }

  // ---------- What is published ----------

  lemma AcceptedIsUsable(c: Catalog, f: PriceFile, user: Id)
    requires PartnerAccepts(c, f, user)
    ensures AllUsable(f.goods.value)
  {
    var keys := CategoriesMatched(c.categories, f.categories.value).value.rows.Keys;
    forall g | g in f.goods.value ensures Usable(g) { assert Fits(keys, g); }
  }

  /**
   A successful `PartnerUpdate` of a file that repeats no id: one row per id, and a list of one offer per
   good in a shop that bears the file's name.
   */
  lemma PartnerPublishes(db: Db, f: PriceFile, user: Id)
    requires ValidCatalog(db.catalog) && Run(Begin(db), PartnerProgram(f, user)).error.None? && DistinctIds(OrEmpty(f.goods))
    ensures f.shop.Given? && f.goods.Given? && AllUsable(f.goods.value)
    ensures var p := Run(Begin(db), PartnerProgram(f, user)); var d, shop := p.db.catalog, p.regs.shop;
      && Core(d) && shop in d.shops.rows && d.shops.rows[shop].name == f.shop.value
      && PriceList(d, shop) == PartnerListing(f.goods.value)
      && (forall other | other != shop :: PriceList(d, other) == PriceList(db.catalog, other))
  {
    PartnerSucceedsExactly(db, f, user);
    AcceptedIsUsable(db.catalog, f, user);
    var s, head, gs := Begin(db), PartnerHead(f, user), f.goods.value;
    RanHalves(s, head, PartnerGoods(gs));
    var a := PartnerHeadRefines(db, f, user);
    var u := Run(s, head);
    PartnerGoodsRefine(u, a, gs);
    PartnerGoodsBody(gs);
    RunKeepsShop(u, PartnerGoods(gs));
    var t, b := Run(u, PartnerGoods(gs)), AbsRun(a, PartnerGoods(gs));
    StillElsewhere(ViewOf(db.catalog), a.view, b.view, a.shop);
    ListsFromViews(db.catalog, t.db.catalog, u.regs.shop);
  }

  // ---------- Repeated ids ----------

  /** Every good that got through has its row. */
  lemma {:induction false} RowsInTheEnd(s: Session, gs: seq<Good>)
    requires Ready(s) && Run(s, PartnerGoods(gs)).error.None?
    ensures var t := Run(s, PartnerGoods(gs));
      && (forall ext, product :: HasRow(s.db.catalog, s.regs.shop, ext, product) ==> HasRow(t.db.catalog, t.regs.shop, ext, product))
      && (forall g | g in gs ::
            && g.id.Given? && g.name.Given? && g.category.Given?
            && HasRow(t.db.catalog, t.regs.shop, g.id.value, Product(g.name.value, g.category.value)))
    decreases |gs|
  {
    if gs != [] {
      assert gs == [gs[0]] + gs[1..];
      RanHalves(s, PartnerGood(gs[0]), PartnerGoods(gs[1..]));
      GoodSucceeds(s, gs[0]);
      RowsInTheEnd(Run(s, PartnerGood(gs[0])), gs[1..]);
    }
  }

  /** A repeated id, under another name or category, leaves two rows for it. */
  lemma RepeatedIdBreaks(db: Db, f: PriceFile, user: Id)
    requires ValidCatalog(db.catalog) && Run(Begin(db), PartnerProgram(f, user)).error.None? && !DistinctIds(OrEmpty(f.goods))
    ensures !OneRowPerOffer(Run(Begin(db), PartnerProgram(f, user)).db.catalog)
  {
    PartnerSucceedsExactly(db, f, user);
    HeadSucceeds(db, f, user);
    var s, gs := Begin(db), f.goods.value;
    RanHalves(s, PartnerHead(f, user), PartnerGoods(gs));
    RowsInTheEnd(Run(s, PartnerHead(f, user)), gs);
    var t := Run(s, PartnerProgram(f, user));
    var c, shop := t.db.catalog, t.regs.shop;
    var i, j :| 0 <= i < j < |gs| && gs[i].id == gs[j].id;
    assert !SameOffer(gs[i], gs[j]) && gs[i] in gs && gs[j] in gs;
    var p, q := Product(gs[i].name.value, gs[i].category.value), Product(gs[j].name.value, gs[j].category.value);
    var x :| IsRow(c, x, shop, gs[i].id.value, p);
    var y :| IsRow(c, y, shop, gs[j].id.value, q);
    assert x != y;
  }

  // ---------- Both importers ----------

  lemma ParametersAlike(ps: seq<(string, Scalar)>)
    requires DistinctNames(ps) && NoNulls(ps)
    ensures MergeParameters(NO_PARAMETERS, ps) == MergeAll(NO_PARAMETERS, ps) <==> PlainParameters(ps)
  {
    if PlainParameters(ps) {
      MergesAlike(NO_PARAMETERS, ps);
    } else {
      var p :| p in ps && !(p.0 != "" && p.1.Truthy());
      var k :| 0 <= k < |ps| && ps[k] == p;
      forall j ensures !Sets(ps, j, p.0) {
        assert 0 <= j < |ps| && ps[j].0 == p.0 ==> j == k;
      }
      MergeKeeps(NO_PARAMETERS, ps, p.0);
      MentionedParameter(ps, p);
      MergeAllShows(NO_PARAMETERS, ps, p.0);
    }
  }

  /** One more good with a new id: both lists take it up alike exactly if it is plain. */
  lemma ListedAlike(g: Good, prices: Prices, others: Prices)
    requires Usable(g) && DistinctNames(g.parameters.value) && g.id.value !in prices && g.id.value !in others
    ensures ListGood(prices, g) == others[g.id.value := PartnerOffer(g)] <==> prices == others && PlainGood(g)
  {
    var e, x, y := g.id.value, ListGood(prices, g), others[g.id.value := PartnerOffer(g)];
    ParametersAlike(g.parameters.value);
    if x == y {
      assert e in y;
      assert Complete(g);
      assert x[e].parameters == y[e].parameters;
      forall k ensures k in prices <==> k in others { assert k in x <==> k in y; }
      forall k | k in prices ensures prices[k] == others[k] { assert x[k] == y[k]; }
      assert prices == others;
    }
  }

  lemma {:induction false} ListedBound(gs: seq<Good>, ext: int)
    requires ext in Listing(gs)
    ensures exists k :: 0 <= k < |gs| && gs[k].id == Given(ext)
    decreases |gs|
  {
    var m := |gs| - 1;
    if gs[m].id != Given(ext) {
      ListedBound(gs[..m], ext);
      var k :| 0 <= k < m && gs[..m][k].id == Given(ext);
      assert gs[k].id == Given(ext);
    }
  }

  predicate AllPlain(gs: seq<Good>) {
    forall g :: g in gs ==> PlainGood(g)
  }

  predicate AllNamed(gs: seq<Good>) {
    forall g :: g in gs ==> DistinctNames(OrEmpty(g.parameters))
  }

  lemma NamedInit(gs: seq<Good>)
    requires gs != []
    ensures AllNamed(gs) <==> AllNamed(gs[..|gs|-1]) && DistinctNames(OrEmpty(gs[|gs|-1].parameters))
    ensures AllPlain(gs) <==> AllPlain(gs[..|gs|-1]) && PlainGood(gs[|gs|-1])
  {
    assert gs == gs[..|gs|-1] + [gs[|gs|-1]];
  }

  lemma UnlistedId(gs: seq<Good>)
    requires gs != [] && DistinctIds(gs) && gs[|gs|-1].id.Given?
    ensures gs[|gs|-1].id.value !in Listing(gs[..|gs|-1])
  {
    if gs[|gs|-1].id.value in Listing(gs[..|gs|-1]) { ListedBound(gs[..|gs|-1], gs[|gs|-1].id.value); }
  }

  /** Without repeated ids the two lists are equal exactly for goods without gaps and falsy parameters. */
  lemma {:induction false} ListingsAgreeExactly(gs: seq<Good>)
    requires AllUsable(gs) && DistinctIds(gs) && AllNamed(gs)
    ensures Listing(gs) == PartnerListing(gs) <==> AllPlain(gs)
    decreases |gs|
  {
    if gs != [] {
      var init, g := gs[..|gs|-1], gs[|gs|-1];
      UsableInit(gs);
      FreshId(gs);
      NamedInit(gs);
      UnlistedId(gs);
      ListingsAgreeExactly(init);
      ListedAlike(g, Listing(init), PartnerListing(init));
    }
  }

  lemma AcceptedIsNamed(c: Catalog, f: PriceFile, user: Id)
    requires PartnerAccepts(c, f, user)
    ensures AllNamed(f.goods.value)
  {
    var keys := CategoriesMatched(c.categories, f.categories.value).value.rows.Keys;
    forall g | g in f.goods.value ensures DistinctNames(OrEmpty(g.parameters)) { assert Fits(keys, g); }
  }

  /** Both succeed, each id names one row, and the lists are equal. */
  ghost predicate Agree(p: Session, l: Session) {
    && p.error.None? && l.error.None? && OneRowPerOffer(p.db.catalog)
    && PriceList(p.db.catalog, p.regs.shop) == PriceList(l.db.catalog, l.regs.shop)
  }

  /**
   For any file that `PartnerUpdate` accepts: `load_data` succeeds, too, and both publish the same list of
   one row per id, if and only if `load_data` finds its categories and products, no id is repeated, and
   no good has a gap, a zero or a falsy parameter.
   */
  lemma BothPublishExactly(db: Db, f: PriceFile, user: Id)
    requires ValidCatalog(db.catalog) && PartnerAccepts(db.catalog, f, user)
    ensures Agree(Run(Begin(db), PartnerProgram(f, user)), Run(Begin(db), LoadProgram(f, Some(user)))) <==>
      Importable(db.catalog, f, Some(user)) && DistinctIds(f.goods.value) && AllPlain(f.goods.value)
  {
    var p := Run(Begin(db), PartnerProgram(f, user));
    PartnerSucceedsExactly(db, f, user);
    LoadSucceedsExactly(db, f, Some(user));
    if !DistinctIds(f.goods.value) {
      RepeatedIdBreaks(db, f, user);
    } else {
      PartnerPublishes(db, f, user);
      AcceptedIsNamed(db.catalog, f, user);
      ListingsAgreeExactly(f.goods.value);
      if Importable(db.catalog, f, Some(user)) { LoadPublishesFile(db, f, Some(user)); }
    }
  }

  // ---------- Files without gaps ----------

  lemma {:induction false} MatchedKeys(t: Table<Category>, es: seq<CategoryEntry>)
    requires CategoriesMatched(t, es).Some? && forall e :: e in es ==> Accepted(e)
    ensures CategoriesMatched(t, es).value.rows.Keys == t.rows.Keys + set e | e in es && Accepted(e) :: e.id.value
    decreases |es|
  {
    if es != [] {
      var e := es[0];
      assert e in es && es == [e] + es[1..];
      var row := Category(e.name.value);
      var u := if e.id.value in t.rows then t else t.InsertAt(e.id.value, row);
      assert CategoriesMatched(t, es) == CategoriesMatched(u, es[1..]);
      MatchedKeys(u, es[1..]);
      assert u.rows.Keys == t.rows.Keys + {e.id.value};
    }
  }

  lemma PlainIsImportable(c: Catalog, f: PriceFile, user: Id)
    requires PartnerAccepts(c, f, user) && Plain(f)
    ensures Importable(c, f, Some(user))
  {
    var gs, keys := f.goods.value, CategoriesAfter(c, f.categories.value);
    MatchedKeys(c.categories, f.categories.value);
    forall k | 0 <= k < |gs| && Complete(gs[k]) ensures Sound(gs[k]) && Placed(c, keys, gs, k) {
      assert Fits(keys, gs[k]);
      assert LoadSuccess.Opens(keys, gs[k], gs[k].name);
    }
  }

  /** Whenever `PartnerUpdate` succeeds on a file without gaps and repeated ids, the two agree. */
  lemma PartnerRefinedByLoad(db: Db, f: PriceFile, user: Id)
    requires ValidCatalog(db.catalog) && Plain(f) && DistinctIds(OrEmpty(f.goods))
    requires Run(Begin(db), PartnerProgram(f, user)).error.None?
    ensures Agree(Run(Begin(db), PartnerProgram(f, user)), Run(Begin(db), LoadProgram(f, Some(user))))
  {
    PartnerSucceedsExactly(db, f, user);
    PlainIsImportable(db.catalog, f, user);
    BothPublishExactly(db, f, user);
  }

  // ---------- Shops of strangers ----------

  lemma ShopsAfterPartner(db: Db, f: PriceFile, user: Id)
    requires ValidCatalog(db.catalog) && Run(Begin(db), PartnerProgram(f, user)).error.None?
    ensures f.shop.Given? && GetOrCreateOwnShop(db.catalog, Some(f.shop.value), user).Ok?
    ensures Run(Begin(db), PartnerProgram(f, user)).db.catalog.shops == GetOrCreateOwnShop(db.catalog, Some(f.shop.value), user).catalog.shops
  {
    PartnerSucceedsExactly(db, f, user);
    var s, one := Begin(db), OpenOwnShop(f.shop.Get(), user);
    var rest := PartnerCategories(f.categories.value) + ([ClearOffers] + PartnerGoods(f.goods.value));
    PartnerUnfolds(f, user);
    RanFirst(s, one, rest);
    PartnerCategoriesSafe(f.categories.value);
    PartnerGoodsBody(f.goods.value);
    RunKeepsShop(Exec(s, one), rest);
  }

  /** Shop names stay unique unless a stranger owns a shop of the file's name, and the user owns none. */
  lemma SecondShopExactly(db: Db, f: PriceFile, user: Id)
    requires ValidCatalog(db.catalog) && Run(Begin(db), PartnerProgram(f, user)).error.None?
    ensures var c, d := db.catalog, Run(Begin(db), PartnerProgram(f, user)).db.catalog;
      && f.shop.Given?
      && (UniqueShops(d) <==>
            ShopsNamed(c.shops.rows, f.shop.value) == {} || ShopsNamed(c.shops.rows, f.shop.value) * ShopsOwnedBy(c.shops.rows, user) != {})
  {
    ShopsAfterPartner(db, f, user);
    NamesAfterOpening(db.catalog, f.shop.value, user);
  }

  lemma NamesAfterOpening(c: Catalog, name: string, user: Id)
    requires ValidCatalog(c) && GetOrCreateOwnShop(c, Some(name), user).Ok?
    ensures UniqueShops(GetOrCreateOwnShop(c, Some(name), user).catalog) <==>
      ShopsNamed(c.shops.rows, name) == {} || ShopsNamed(c.shops.rows, name) * ShopsOwnedBy(c.shops.rows, user) != {}
  {
    var named, both := ShopsNamed(c.shops.rows, name), ShopsNamed(c.shops.rows, name) * ShopsOwnedBy(c.shops.rows, user);
    var d := GetOrCreateOwnShop(c, Some(name), user).catalog;
    if both == {} && named != {} {
      var i := Any(named);
      assert i in d.shops.rows && c.shops.next in d.shops.rows && d.shops.rows[i].name == d.shops.rows[c.shops.next].name;
    } else if both == {} {
      assert forall i :: i in c.shops.rows ==> i !in named;
    }
  }

  /** After that, `load_data` of the name cannot tell the two shops apart. */
  lemma SecondShopBlocks(db: Db, f: PriceFile, user: Id, g: PriceFile, owner: Option<Id>)
    requires ValidCatalog(db.catalog) && Run(Begin(db), PartnerProgram(f, user)).error.None?
    requires !UniqueShops(Run(Begin(db), PartnerProgram(f, user)).db.catalog)
    requires Recovery.Formed(g) && g.shop == f.shop
    ensures Run(Begin(Run(Begin(db), PartnerProgram(f, user)).db), LoadProgram(g, owner)).error == Some(MultipleObjectsReturned)
  {
    SecondShopExactly(db, f, user);
    ShopsAfterPartner(db, f, user);
    var c, d := db.catalog, Run(Begin(db), PartnerProgram(f, user)).db;
    var i := Any(ShopsNamed(c.shops.rows, f.shop.value));
    assert i in ShopsNamed(d.catalog.shops.rows, f.shop.value) && c.shops.next in ShopsNamed(d.catalog.shops.rows, f.shop.value);
    TwoShopsConfuse(d, g, owner, i, c.shops.next);
  }

  lemma TwoShopsConfuse(db: Db, f: PriceFile, user: Option<Id>, i: Id, j: Id)
    requires Recovery.Formed(f) && f.shop.Given? && i != j
    requires i in ShopsNamed(db.catalog.shops.rows, f.shop.value) && j in ShopsNamed(db.catalog.shops.rows, f.shop.value)
    ensures Run(Begin(db), LoadProgram(f, user)).error == Some(MultipleObjectsReturned)
  {
    var one, rest := OpenShop(f.shop.Get(), TruthyUser(user)), LoadMiddle(f) + ([ClearOffers] + LoadTail(f));
    LoadUnfolds(f, user);
    RunStep(Begin(db), one, rest);
  }
}
