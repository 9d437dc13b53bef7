/**
 What an import that stops early leaves, and what undoes it.  A stop is modelled as a prefix of the
 program: a data error, a lost connection or a killed process, after any statement whatever.
 */
module Recovery {
  import opened Prelude
  import opened Tables
  import opened Orm
  import opened Programs
  import opened PriceView
  import opened LoadSuccess
  import opened LoadResult

  // ---------- Prefixes of the goods ----------

  ghost predicate IsCut(shown: seq<Good>, gs: seq<Good>, i: nat, j: nat) {
    && i <= |gs|
    && (|| shown == gs[..i]
        || (i < |gs| && j <= |OrEmpty(gs[i].parameters)| && shown == gs[..i] + [Clip(gs[i], j)]))
  }

  /** Some goods in full, then at most one more with only some of its parameters. */
  ghost predicate Truncation(shown: seq<Good>, gs: seq<Good>) {
    exists i: nat, j: nat :: IsCut(shown, gs, i, j)
  }

  // ---------- Statements that have run were acceptable ----------

  ghost predicate Tolerated(st: Stmt) {
    && !st.Raise?
    && (st.PutOffer? ==> st.model.Some? && st.rrc.Some? && 0 <= st.ext && 0 <= st.price && 0 <= st.rrc.value && 0 <= st.quantity)
  }

  ghost predicate NoFault(p: seq<Stmt>) {
    forall st :: st in p ==> Tolerated(st)
  }

  lemma {:induction false} RanAccepted(s: Session, p: seq<Stmt>)
    requires s.error.None? && Run(s, p).error.None?
    ensures NoFault(p)
    decreases |p|
  {
    if p != [] {
      RanAccepted(Exec(s, p[0]), p[1..]);
      assert p == [p[0]] + p[1..];
    }
  }

  lemma {:induction false} AcceptedGoodsSound(gs: seq<Good>)
    requires NoFault(LoadGoods(gs))
    ensures AllSound(gs)
    decreases |gs|
  {
    if gs != [] {
      var g := gs[0];
      assert forall st :: st in LoadGoods(gs[1..]) ==> st in LoadGoods(gs);
      AcceptedGoodsSound(gs[1..]);
      if Complete(g) {
        assert g.parameters.Null? ==> Raise(AttributeError) in LoadParameterField(g.parameters);
        assert forall st :: st in LoadGood(g) ==> st in LoadGoods(gs);
        var put := RowStmts(g)[1];
        assert LoadGood(g)[1] == put;
        assert Tolerated(put);
        assert !Tolerated(Raise(AttributeError));
      }
      assert forall k :: 0 < k < |gs| ==> gs[k] == gs[1..][k-1];
    }
  }

  // ---------- Prefixes of programs show truncations ----------

  lemma AbsTwoSteps(a: Abs, one: Stmt, two: Stmt, rest: seq<Stmt>)
    ensures AbsRun(a, [one, two] + rest) == AbsRun(AbsExec(AbsExec(a, one), two), rest)
  {
    assert [one, two] + rest == [one] + ([two] + rest);
    AbsStep(a, one, [two] + rest);
    AbsStep(AbsExec(a, one), two, rest);
  }

  lemma {:induction false} CutParameters(a: Abs, ps: seq<(string, Scalar)>, k: nat) returns (j: nat)
    requires k <= |LoadParameters(ps)|
    ensures j <= |ps| && AbsRun(a, LoadParameters(ps)[..k]).view == AbsRun(a, LoadParameters(ps[..j])).view
    decreases |ps|
  {
    if k == 0 {
      j := 0;
    } else if ps[0].0 != "" && ps[0].1.Truthy() {
      var one, two := OpenParameter(ps[0].0), PutValue(ps[0].1.text);
      var rest := LoadParameters(ps[1..]);
      assert LoadParameters(ps) == [one, two] + rest;
      if k == 1 {
        j := 0;
        assert LoadParameters(ps)[..1] == [one] + [];
        AbsStep(a, one, []);
      } else {
        var n := CutParameters(AbsExec(AbsExec(a, one), two), ps[1..], k - 2);
        j := n + 1;
        assert LoadParameters(ps)[..k] == [one, two] + rest[..k-2];
        AbsTwoSteps(a, one, two, rest[..k-2]);
        assert ps[..j][1..] == ps[1..][..n];
        assert LoadParameters(ps[..j]) == [one, two] + LoadParameters(ps[1..][..n]);
        AbsTwoSteps(a, one, two, LoadParameters(ps[1..][..n]));
      }
    } else {
      assert LoadParameters(ps) == LoadParameters(ps[1..]);
      var n := CutParameters(a, ps[1..], k);
      j := n + 1;
      assert ps[..j][0] == ps[0] && ps[..j][1..] == ps[1..][..n];
      assert LoadParameters(ps[..j]) == LoadParameters(ps[1..][..n]);
    }
  }

  /** A prefix of one good's program: nothing visible before its row is written, the clipped good afterwards. */
  lemma CutGood(a: Abs, g: Good, k: nat) returns (j: nat)
    requires Complete(g) && k <= |LoadGood(g)| && NoFault(LoadGood(g)[..k])
    ensures j <= |OrEmpty(g.parameters)|
    ensures var b := AbsRun(a, LoadGood(g)[..k]);
      && (k < 2 ==> b.view == a.view)
      && (2 <= k ==> Of(b.view, a.shop) == ListGood(Of(a.view, a.shop), Clip(g, j)) && Elsewhere(a.view, b.view, a.shop))
  {
    j := 0;
    if k < 2 {
      if k == 1 {
        assert LoadGood(g)[..k] == [RowStmts(g)[0]] + [];
        AbsStep(a, RowStmts(g)[0], []);
      }
    } else {
      var put := RowStmts(g)[1];
      assert LoadGood(g)[..k][1] == put;
      assert Tolerated(put);
      assert Sound(g.(parameters := Missing));
      var field := LoadParameterField(g.parameters);
      assert LoadGood(g)[..k] == RowStmts(g) + field[..k-2];
      AbsRunAppend(a, RowStmts(g), field[..k-2]);
      var m := AbsRun(a, RowStmts(g));
      if g.parameters.Given? {
        j := CutParameters(m, g.parameters.value, k - 2);
      } else {
        assert LoadGood(g)[..k][k-1] == LoadGood(g)[k-1];
        assert !Tolerated(Raise(AttributeError));
        assert field[..k-2] == [];
      }
      AbsRunAppend(a, RowStmts(g), LoadParameters(OrEmpty(g.parameters)[..j]));
      AbsSoundGood(a, Clip(g, j), OrEmpty(g.parameters)[..j]);
      assert RowStmts(Clip(g, j)) == RowStmts(g);
    }
  }

  lemma {:induction false} CutGoods(a: Abs, gs: seq<Good>, k: nat) returns (shown: seq<Good>)
    requires k <= |LoadGoods(gs)| && NoFault(LoadGoods(gs)[..k]) && Of(a.view, a.shop) == imap[]
    ensures Truncation(shown, gs)
    ensures var b := AbsRun(a, LoadGoods(gs)[..k]); Of(b.view, a.shop) == Listing(shown) && Elsewhere(a.view, b.view, a.shop)
    decreases |gs|
  {
    if gs == [] {
      shown := [];
      assert IsCut(shown, gs, 0, 0);
    } else {
      var m := |gs| - 1;
      var init, last := gs[..m], gs[m];
      var p, q := LoadGoods(init), LoadGood(last);
      LoadGoodsSnoc(gs);
      if k <= |p| {
        assert LoadGoods(gs)[..k] == p[..k];
        shown := CutGoods(a, init, k);
        CutWider(shown, gs, m);
      } else {
        assert LoadGoods(gs)[..k] == p + q[..k-|p|];
        forall st | st in p ensures Tolerated(st) { assert st in LoadGoods(gs)[..k]; }
        AcceptedGoodsSound(init);
        AbsGoods(a, init);
        AbsRunAppend(a, p, q[..k-|p|]);
        forall st | st in q[..k-|p|] ensures Tolerated(st) { assert st in LoadGoods(gs)[..k]; }
        var j := CutGood(AbsRun(a, p), last, k - |p|);
        if k - |p| < 2 {
          shown := init;
        } else {
          shown := init + [Clip(last, j)];
          assert shown[..m] == init;
        }
        assert IsCut(shown, gs, m, j);
      }
    }
  }

  lemma CutWider(shown: seq<Good>, gs: seq<Good>, m: nat)
    requires m <= |gs| && Truncation(shown, gs[..m])
    ensures Truncation(shown, gs)
  {
    var i: nat, j: nat :| IsCut(shown, gs[..m], i, j);
    assert gs[..m][..i] == gs[..i];
    assert IsCut(shown, gs, i, j);
  }

  // ---------- Every statement keeps the store valid and only adds shared rows ----------

  /** Nothing that a later import looks up has gone away. */
  ghost predicate Grows(c: Catalog, d: Catalog) {
    && c.categories.rows.Keys <= d.categories.rows.Keys
    && (forall p :: p in c.products.rows ==> p in d.products.rows && d.products.rows[p].name == c.products.rows[p].name)
    && (forall s :: s in c.shops.rows ==> s in d.shops.rows && d.shops.rows[s] == c.shops.rows[s])
  }

  lemma LoadStmtKeeps(s: Session, st: Stmt)
    requires LoadStmt(st) && ValidCatalog(s.db.catalog)
    ensures ValidCatalog(Exec(s, st).db.catalog) && Grows(s.db.catalog, Exec(s, st).db.catalog)
  {
    var c, r := s.db.catalog, s.regs;
    if Ask(c, r, st).Ok? {
      match st
      case OpenShop(name, owner) => ShopKeeps(c, name, owner);
      case OpenCategory(id, name) => if Exec(s, st).db.catalog != c { CategoryKeeps(c, id, name); }
      case LinkCategory => LinkKeeps(c, r.category, r.shop);
      case ClearOffers => ClearKeeps(c, r.shop);
      case OpenProduct(name, category) => ProductKeeps(c, name, category);
      case PutOffer(ext, model, price, rrc, quantity) =>
        SaveOfferKeeps(c, Info(ext, r.shop, r.product, model.value, price, rrc.value, quantity));
      case OpenParameter(name) => ParameterKeeps(c, name);
      case PutValue(text) => SaveValueKeeps(c, r.info, r.parameter, text);
      case _ =>
    }
  }

  lemma {:induction false} LoadKeeps(s: Session, p: seq<Stmt>)
    requires ValidCatalog(s.db.catalog) && forall st :: st in p ==> LoadStmt(st)
    ensures ValidCatalog(Run(s, p).db.catalog) && Grows(s.db.catalog, Run(s, p).db.catalog)
    decreases |p|
  {
    if p != [] && s.error.None? {
      assert p[0] in p;
      LoadStmtKeeps(s, p[0]);
      LoadKeeps(Exec(s, p[0]), p[1..]);
    }
  }

  lemma LoadProgramStmts(f: PriceFile, user: Option<Id>)
    ensures forall st :: st in LoadProgram(f, user) ==> LoadStmt(st)
  {
    LoadTailRest(f);
    LoadCategoriesRest(OrEmpty(f.categories));
  }

  // ---------- Main results ----------

  /** A file with all three keys can be rejected only after its shop was opened. */
  predicate Formed(f: PriceFile) {
    f.shop != Missing && f.categories != Missing && f.goods != Missing
  }

  lemma RejectedAtOnce(db: Db, f: PriceFile, user: Option<Id>, k: nat)
    requires !Formed(f) && k <= |LoadProgram(f, user)|
    ensures Run(Begin(db), LoadProgram(f, user)[..k]) == Session(db, START, if k == 0 then None else Some(BadFormat))
  {
    if k > 0 {
      RunStep(Begin(db), Raise(BadFormat), []);
      assert LoadProgram(f, user)[..k] == [Raise(BadFormat)] + [];
    }
  }

  /**
   How many statements it takes to delete the shop's rows: all of the head.  Without one of the keys
   there is one statement, which raises, so the deletion is not reached.
   */
  function Deletion(f: PriceFile, user: Option<Id>): nat {
    if Formed(f) then |LoadHead(f, user)| else 2
  }

  /**
   Wherever an import stops, the store is valid and other shops' lists are intact.  Before the deletion
   the shop's list is intact too; after it, the list is the one of some goods of the file in full and at
   most one more whose parameters may be incomplete.
   */
  lemma StoppedLoad(db: Db, f: PriceFile, user: Option<Id>, k: nat) returns (shown: seq<Good>)
    requires ValidCatalog(db.catalog)
    requires k <= |LoadProgram(f, user)| && Run(Begin(db), LoadProgram(f, user)[..k]).error.None?
    ensures Truncation(shown, OrEmpty(f.goods))
    ensures var t := Run(Begin(db), LoadProgram(f, user)[..k]); var d, shop := t.db.catalog, t.regs.shop;
      && ValidCatalog(d)
      && (forall other | other != shop :: PriceList(d, other) == PriceList(db.catalog, other))
      && (k < Deletion(f, user) ==> PriceList(d, shop) == PriceList(db.catalog, shop))
      && (Deletion(f, user) <= k ==> PriceList(d, shop) == Listing(shown))
  {
    var p, s := LoadProgram(f, user), Begin(db);
    LoadProgramStmts(f, user);
    LoadKeeps(s, p[..k]);
    if k < Deletion(f, user) {
      shown := [];
      assert IsCut(shown, OrEmpty(f.goods), 0, 0);
      if Formed(f) {
        assert p[..k] == LoadHead(f, user)[..k];
        BeforeDeletion(db, f, user, k);
      } else {
        RejectedAtOnce(db, f, user, k);
      }
    } else {
      shown := AfterDeletion(db, f, user, k);
    }
  }

  lemma HeadPrefix(f: PriceFile, user: Option<Id>, k: nat)
    requires Formed(f) && 0 < k < Deletion(f, user) && NoFault(LoadHead(f, user)[..k])
    ensures var es := OrEmpty(f.categories);
      k - 1 <= |LoadCategories(es)| &&
      LoadHead(f, user)[..k] == [OpenShop(f.shop.Get(), TruthyUser(user))] + LoadCategories(es)[..k-1]
  {
    assert !Tolerated(Raise(TypeError));
    assert LoadHead(f, user)[..k][k-1] == LoadHead(f, user)[k-1];
  }

  lemma TailPrefix(f: PriceFile, k: nat)
    requires f.goods != Missing && k <= |LoadTail(f)| && NoFault(LoadTail(f)[..k])
    ensures var gs := OrEmpty(f.goods); k <= |LoadGoods(gs)| && LoadTail(f)[..k] == LoadGoods(gs)[..k]
  {
    assert !Tolerated(Raise(TypeError));
    assert k > 0 ==> LoadTail(f)[..k][k-1] == LoadTail(f)[k-1];
  }

  lemma BeforeDeletion(db: Db, f: PriceFile, user: Option<Id>, k: nat)
    requires ValidCatalog(db.catalog) && Formed(f) && k < Deletion(f, user)
    requires Run(Begin(db), LoadHead(f, user)[..k]).error.None?
    ensures forall x :: PriceList(Run(Begin(db), LoadHead(f, user)[..k]).db.catalog, x) == PriceList(db.catalog, x)
  {
    var one, es := OpenShop(f.shop.Get(), TruthyUser(user)), OrEmpty(f.categories);
    if k > 0 {
      var s := Begin(db);
      RanAccepted(s, LoadHead(f, user)[..k]);
      HeadPrefix(f, user, k);
      RunStep(s, one, LoadCategories(es)[..k-1]);
      OpenShopRefines(db.catalog, one.shopName, one.owner);
      CategoriesInvisible(Exec(s, one), es, k - 1);
    }
  }

  /** Categories and links are not part of a price list. */
  lemma CategoriesInvisible(s: Session, es: seq<CategoryEntry>, k: nat)
    requires Core(s.db.catalog) && s.error.None? && k <= |LoadCategories(es)|
    requires Run(s, LoadCategories(es)[..k]).error.None?
    ensures forall x :: PriceList(Run(s, LoadCategories(es)[..k]).db.catalog, x) == Of(ViewOf(s.db.catalog), x)
    ensures forall x :: PriceList(s.db.catalog, x) == Of(ViewOf(s.db.catalog), x)
  {
    var a, q := AbsOf(s.db.catalog, s.regs), LoadCategories(es)[..k];
    QuietCategories(es);
    assert forall st :: st in q ==> st in LoadCategories(es);
    RunRefines(s, a, q);
    AbsCategoriesPrefix(a, es, k);
    forall x
      ensures PriceList(Run(s, q).db.catalog, x) == Of(ViewOf(s.db.catalog), x) == PriceList(s.db.catalog, x)
    {
      PriceListIsView(Run(s, q).db.catalog, x);
      PriceListIsView(s.db.catalog, x);
    }
  }

  lemma {:induction false} AbsCategoriesPrefix(a: Abs, es: seq<CategoryEntry>, k: nat)
    requires k <= |LoadCategories(es)|
    ensures AbsRun(a, LoadCategories(es)[..k]) == a
    decreases |es|, k
  {
    if k > 0 {
      var p := LoadCategories(es);
      LoadCategoriesRest(es);
      assert p[..k] == p[..k-1] + [p[k-1]];
      AbsRunAppend(a, p[..k-1], [p[k-1]]);
      AbsCategoriesPrefix(a, es, k - 1);
      QuietCategories(es);
      AbsStep(a, p[k-1], []);
      assert [p[k-1]] + [] == [p[k-1]];
    }
  }

  lemma {:induction false} QuietCategories(es: seq<CategoryEntry>)
    ensures forall st :: st in LoadCategories(es) ==> st.OpenCategory? || st.LinkCategory?
    decreases |es|
  {
    if es != [] {
      QuietCategories(es[1..]);
    }
  }

  lemma AfterDeletion(db: Db, f: PriceFile, user: Option<Id>, k: nat) returns (shown: seq<Good>)
    requires ValidCatalog(db.catalog)
    requires Deletion(f, user) <= k <= |LoadProgram(f, user)|
    requires Run(Begin(db), LoadProgram(f, user)[..k]).error.None?
    ensures Truncation(shown, OrEmpty(f.goods))
    ensures var t := Run(Begin(db), LoadProgram(f, user)[..k]); var d, shop := t.db.catalog, t.regs.shop;
      && PriceList(d, shop) == Listing(shown)
      && (forall other | other != shop :: PriceList(d, other) == PriceList(db.catalog, other))
  {
    var s := Begin(db);
    var head, rest := LoadHead(f, user), LoadTail(f)[..k - |LoadHead(f, user)|];
    assert LoadProgram(f, user)[..k] == head + rest;
    RunAppend(s, head, rest);
    var u := Run(s, head);
    RanAccepted(s, head);
    assert f.categories.Null? ==> head[1] == Raise(TypeError);
    assert !Tolerated(Raise(TypeError));
    var a := HeadRefines(db, f, user);
    shown := TailStopped(u, a, f, |rest|);
    ListsFromViews(db.catalog, Run(u, rest).db.catalog, u.regs.shop);
  }

  lemma TailStopped(u: Session, a: Abs, f: PriceFile, k: nat) returns (shown: seq<Good>)
    requires u.error.None? && Core(u.db.catalog) && Match(u.db.catalog, u.regs, a) && Of(a.view, a.shop) == imap[]
    requires f.goods != Missing && k <= |LoadTail(f)| && Run(u, LoadTail(f)[..k]).error.None?
    ensures Truncation(shown, OrEmpty(f.goods))
    ensures var t := Run(u, LoadTail(f)[..k]);
      t.regs.shop == u.regs.shop && Of(ViewOf(t.db.catalog), a.shop) == Listing(shown) && Elsewhere(a.view, ViewOf(t.db.catalog), a.shop)
  {
    LoadTailRest(f);
    var rest := LoadTail(f)[..k];
    assert forall st :: st in rest ==> st in LoadTail(f);
    RunRefines(u, a, rest);
    RanAccepted(u, rest);
    TailPrefix(f, k);
    shown := CutGoods(a, OrEmpty(f.goods), k);
    RunKeepsShop(u, rest);
  }

  // ---------- Reloading ----------

  lemma GrownPlaced(c: Catalog, d: Catalog, es: seq<CategoryEntry>, gs: seq<Good>)
    requires Grows(c, d) && AllPlaced(c, CategoriesAfter(c, es), gs)
    ensures AllPlaced(d, CategoriesAfter(d, es), gs)
  {
    forall k | 0 <= k < |gs| && Complete(gs[k]) ensures Placed(d, CategoriesAfter(d, es), gs, k) {
      var name := gs[k].name;
      if HasProduct(c, name.value) {
        var p := Any(ProductsNamed(c.products.rows, name.value));
        assert p in ProductsNamed(d.products.rows, name.value);
      } else {
        var j :| 0 <= j <= k && Opens(CategoriesAfter(c, es), gs[j], name);
        assert Opens(CategoriesAfter(d, es), gs[j], name);
      }
    }
  }

  /** The shop table after a part of an import: at most the file's shop is new. */
  ghost function ShopsAfter(c: Catalog, f: PriceFile, user: Option<Id>, k: nat): Table<Shop> {
    if 0 < k && Formed(f) && f.shop.Given? && ShopsNamed(c.shops.rows, f.shop.value) == {} && ShopOpens(c, f.shop.value, TruthyUser(user))
    then c.shops.Insert(Shop(f.shop.value, TruthyUser(user)))
    else c.shops
  }

  lemma PrefixShops(db: Db, f: PriceFile, user: Option<Id>, k: nat)
    requires ValidCatalog(db.catalog) && k <= |LoadProgram(f, user)|
    ensures Run(Begin(db), LoadProgram(f, user)[..k]).db.catalog.shops == ShopsAfter(db.catalog, f, user, k)
  {
    if k > 0 && Formed(f) {
      var p, s, one := LoadProgram(f, user)[..k], Begin(db), OpenShop(f.shop.Get(), TruthyUser(user));
      assert p == [one] + p[1..];
      RunStep(s, one, p[1..]);
      AfterShop(f, user, p);
      RunKeepsShop(Exec(s, one), p[1..]);
      if f.shop.Given? { OneShop(db.catalog, f.shop.value); }
    } else if k > 0 {
      RejectedAtOnce(db, f, user, k);
    }
  }

  lemma DropFirst(one: Stmt, rest: seq<Stmt>)
    ensures ([one] + rest)[1..] == rest
  {}

  lemma AfterHead(f: PriceFile, user: Option<Id>)
    requires Formed(f)
    ensures forall st :: st in LoadProgram(f, user)[1..] ==> BodyStmt(st)
  {
    LoadTailRest(f);
    LoadCategoriesRest(OrEmpty(f.categories));
    var one, rest := OpenShop(f.shop.Get(), TruthyUser(user)), LoadMiddle(f) + ([ClearOffers] + LoadTail(f));
    assert LoadProgram(f, user) == [one] + rest;
    DropFirst(one, rest);
  }

  lemma AfterShop(f: PriceFile, user: Option<Id>, p: seq<Stmt>)
    requires Formed(f) && p != [] && p <= LoadProgram(f, user)
    ensures forall st :: st in p[1..] ==> BodyStmt(st)
  {
    AfterHead(f, user);
    var q := LoadProgram(f, user)[1..];
    assert p[1..] <= q;
    assert forall st :: st in p[1..] ==> st in q;
  }

  /** The stopped import has created its own, differently named shop for the user who now needs one. */
  ghost predicate TakesOwner(c: Catalog, f: PriceFile, user: Option<Id>, k: nat, name: string, owner: Option<Id>) {
    && 0 < k && Formed(f) && f.shop.Given? && f.shop.value != name
    && owner.Some? && owner == TruthyUser(user)
    && ShopsNamed(c.shops.rows, f.shop.value) == {} && ShopsNamed(c.shops.rows, name) == {}
  }

  lemma ShopStillOpens(c: Catalog, d: Catalog, f: PriceFile, user: Option<Id>, k: nat, name: string, owner: Option<Id>)
    requires c.shops.Fresh() && d.shops == ShopsAfter(c, f, user, k) && ShopOpens(c, name, owner)
    ensures ShopOpens(d, name, owner) <==> !TakesOwner(c, f, user, k, name, owner)
  {
    var rows, rows' := c.shops.rows, d.shops.rows;
    if ShopsNamed(rows, name) != {} {
      var i := Any(ShopsNamed(rows, name));
      assert i in ShopsNamed(rows', name);
    } else if d.shops != c.shops {
      var added := rows'[c.shops.next];
      assert c.shops.next in rows';
      if added.name == name {
        assert c.shops.next in ShopsNamed(rows', name);
      } else {
        SameSet(ShopsNamed(rows', name), ShopsNamed(rows, name));
        if owner.Some? && added.owner == owner {
          assert c.shops.next in ShopsOwnedBy(rows', owner.value);
        } else if owner.Some? {
          SameSet(ShopsOwnedBy(rows', owner.value), ShopsOwnedBy(rows, owner.value));
        }
      }
    }
  }

  /**
   Recovery, exactly: take a file that could have been imported.  After an import that stopped anywhere
   it can still be imported, unless that import created another shop for the same owner; and the shop's
   list is then what it would be had the stopped import never run.
   */
  lemma ReloadRecoversExactly(db: Db, f: PriceFile, user: Option<Id>, k: nat, g: PriceFile, owner: Option<Id>)
    requires ValidCatalog(db.catalog) && k <= |LoadProgram(f, user)|
    requires Run(Begin(db), LoadProgram(g, owner)).error.None?
    ensures var broken := Run(Begin(db), LoadProgram(f, user)[..k]).db;
      var direct, reloaded := Run(Begin(db), LoadProgram(g, owner)), Run(Begin(broken), LoadProgram(g, owner));
      && g.shop.Given?
      && (reloaded.error.None? <==> !TakesOwner(db.catalog, f, user, k, g.shop.value, TruthyUser(owner)))
      && (reloaded.error.None? ==>
            PriceList(reloaded.db.catalog, reloaded.regs.shop) == PriceList(direct.db.catalog, direct.regs.shop))
  {
    var p := LoadProgram(f, user)[..k];
    var broken := Run(Begin(db), p).db;
    LoadProgramStmts(f, user);
    LoadKeeps(Begin(db), p);
    LoadSucceedsExactly(db, g, owner);
    GrownPlaced(db.catalog, broken.catalog, g.categories.value, g.goods.value);
    PrefixShops(db, f, user, k);
    ShopStillOpens(db.catalog, broken.catalog, f, user, k, g.shop.value, TruthyUser(owner));
    LoadSucceedsExactly(broken, g, owner);
    LoadPublishesFile(db, g, owner);
    if Run(Begin(broken), LoadProgram(g, owner)).error.None? { LoadPublishesFile(broken, g, owner); }
  }

  /** A file whose shop has nothing to list. */
  function EmptyFile(shop: string): PriceFile {
    PriceFile(Given(shop), Given([]), Given([]))
  }

  /** An input for which the reload fails: an owner's import of shop A dies at once; B has to be a second shop. */
  lemma OwnerTaken()
    ensures Run(Begin(EMPTY_DB), LoadProgram(EmptyFile("B"), Some(1))).error.None?
    ensures var broken := Run(Begin(EMPTY_DB), LoadProgram(EmptyFile("A"), Some(1))[..1]).db;
      Run(Begin(broken), LoadProgram(EmptyFile("B"), Some(1))).error.Some?
  {
    LoadSucceedsExactly(EMPTY_DB, EmptyFile("B"), Some(1));
    Nothing(ShopsNamed(EMPTY_DB.catalog.shops.rows, "A"));
    Nothing(ShopsNamed(EMPTY_DB.catalog.shops.rows, "B"));
    Nothing(ShopsOwnedBy(EMPTY_DB.catalog.shops.rows, 1));
    assert TakesOwner(EMPTY_DB.catalog, EmptyFile("A"), Some(1), 1, "B", Some(1));
    ReloadRecoversExactly(EMPTY_DB, EmptyFile("A"), Some(1), 1, EmptyFile("B"), Some(1));
  }

  /** Imports of different shops commute: each list depends on its own file only. */
  lemma LoadsCommute(db: Db, f: PriceFile, user: Option<Id>, g: PriceFile, owner: Option<Id>)
    requires ValidCatalog(db.catalog) && f.shop != g.shop
    requires var a := Run(Begin(db), LoadProgram(f, user)); a.error.None? && Run(Begin(a.db), LoadProgram(g, owner)).error.None?
    requires var b := Run(Begin(db), LoadProgram(g, owner)); b.error.None? && Run(Begin(b.db), LoadProgram(f, user)).error.None?
    ensures var a, b := Run(Begin(db), LoadProgram(f, user)), Run(Begin(db), LoadProgram(g, owner));
      var ab, ba := Run(Begin(a.db), LoadProgram(g, owner)), Run(Begin(b.db), LoadProgram(f, user));
      && PriceList(ab.db.catalog, a.regs.shop) == PriceList(ba.db.catalog, ba.regs.shop)
      && PriceList(ab.db.catalog, ab.regs.shop) == PriceList(ba.db.catalog, b.regs.shop)
  {
    var a, b := Run(Begin(db), LoadProgram(f, user)), Run(Begin(db), LoadProgram(g, owner));
    LoadProgramStmts(f, user);
    LoadProgramStmts(g, owner);
    LoadKeeps(Begin(db), LoadProgram(f, user));
    LoadKeeps(Begin(db), LoadProgram(g, owner));
    LoadPublishesFile(db, f, user);
    LoadPublishesFile(db, g, owner);
    LoadPublishesFile(a.db, g, owner);
    LoadPublishesFile(b.db, f, user);
    LoadKeeps(Begin(a.db), LoadProgram(g, owner));
    LoadKeeps(Begin(b.db), LoadProgram(f, user));
  }
}
