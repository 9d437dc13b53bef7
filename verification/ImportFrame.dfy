/**
 What `do_import` cannot do, wherever it stops: add or remove a product row or an order line, or touch a
 row's external id, shop, model or recommended price.  Its create branch fails for want of that price.
 */
module ImportFrame {
  import opened Prelude
  import opened Tables
  import opened Orm
  import opened Programs

  /** Same rows, same identity columns; only product, price and quantity may differ. */
  ghost predicate SameRows(c: Catalog, d: Catalog) {
    && c.infos.rows.Keys == d.infos.rows.Keys && c.infos.next == d.infos.next
    && forall i :: i in c.infos.rows ==>
         var r, q := c.infos.rows[i], d.infos.rows[i];
         q == r.(product := q.product, price := q.price, quantity := q.quantity)
  }

  /** No category, product, parameter or parameter value is ever removed or renamed. */
  ghost predicate Extends(c: Catalog, d: Catalog) {
    && (forall s :: s in c.shops.rows ==> s in d.shops.rows && d.shops.rows[s] == c.shops.rows[s])
    && (forall k :: k in c.categories.rows ==> k in d.categories.rows && d.categories.rows[k] == c.categories.rows[k])
    && (forall p :: p in c.products.rows ==> p in d.products.rows && d.products.rows[p] == c.products.rows[p])
    && (forall p :: p in c.parameters.rows ==> p in d.parameters.rows && d.parameters.rows[p] == c.parameters.rows[p])
    && (forall v :: v in c.values.rows ==>
          v in d.values.rows && d.values.rows[v] == c.values.rows[v].(text := d.values.rows[v].text))
    && c.categories.next <= d.categories.next
  }

  lemma ImportStmtKeeps(s: Session, st: Stmt)
    requires ImportStmt(st) && ValidCatalog(s.db.catalog)
    ensures ValidCatalog(Exec(s, st).db.catalog)
  {
    var c, r := s.db.catalog, s.regs;
    if Ask(c, r, st).Ok? {
      match st
      case OpenShop(name, owner) => ShopKeeps(c, name, owner);
      case OpenCategory(id, name) => if Exec(s, st).db.catalog != c { CategoryKeeps(c, id, name); }
      case OpenProduct(name, category) => ProductKeeps(c, name, category);
      case PatchOffer(ext, price, quantity) => PatchKeeps(c, r.shop, r.product, ext, price, quantity);
      case OpenParameter(name) => ParameterKeeps(c, name);
      case PutValue(text) => SaveValueKeeps(c, r.info, r.parameter, text);
      case _ =>
    }
  }

  lemma PatchKeeps(c: Catalog, shop: Id, product: Id, ext: Option<int>, price: Option<int>, quantity: Option<int>)
    requires ValidCatalog(c) && RestockOffer(c, shop, product, ext, price, quantity).Ok?
    ensures ValidCatalog(RestockOffer(c, shop, product, ext, price, quantity).catalog)
  {
    var r := RestockOffer(c, shop, product, ext, price, quantity);
    assert r.id in InfosAt(c.infos.rows, shop, ext.value);
  }

  lemma ImportStmtFrame(s: Session, st: Stmt)
    requires ImportStmt(st) && FreshCatalog(s.db.catalog)
    ensures var c, d := s.db.catalog, Exec(s, st).db.catalog;
      SameRows(c, d) && Extends(c, d) && d.links == c.links && Exec(s, st).db.sales == s.db.sales
  {
    var c, r := s.db.catalog, s.regs;
    if Ask(c, r, st).Ok? {
      match st
      case PatchOffer(ext, price, quantity) => assert Ask(c, r, st).id in InfosAt(c.infos.rows, r.shop, ext.value);
      case PutValue(text) =>
        if Lookup(ValuesAt(c.values.rows, r.info, r.parameter)).One? {
          assert Ask(c, r, st).id in ValuesAt(c.values.rows, r.info, r.parameter);
        }
      case _ =>
    }
  }

  /** Any part of any import: validity, and the rows and lines it leaves in place. */
  lemma {:induction false} ImportKeeps(s: Session, p: seq<Stmt>)
    requires ValidCatalog(s.db.catalog) && forall st :: st in p ==> ImportStmt(st)
    ensures var c, t := s.db.catalog, Run(s, p);
      && ValidCatalog(t.db.catalog) && SameRows(c, t.db.catalog) && Extends(c, t.db.catalog)
      && t.db.catalog.links == c.links && t.db.sales == s.db.sales
    decreases |p|
  {
    if p != [] && s.error.None? {
      assert p[0] in p;
      ImportStmtKeeps(s, p[0]);
      ImportStmtFrame(s, p[0]);
      ImportKeeps(Exec(s, p[0]), p[1..]);
    }
  }

  // ---------- Which statements an import consists of ----------

  lemma {:induction false} ImportParametersBody(ext: Option<int>, ps: seq<(string, Scalar)>)
    ensures ImportBody(ImportParameters(ext, ps))
    decreases |ps|
  {
    if ps != [] {
      ImportParametersBody(ext, ps[1..]);
    }
  }

  lemma ImportGoodBody(g: Good)
    ensures ImportBody(ImportGood(g))
  {
    ImportParametersBody(g.id.Get(), OrEmpty(g.parameters));
  }

  lemma {:induction false} ImportGoodsBody(gs: seq<Good>)
    ensures ImportBody(ImportGoods(gs))
    decreases |gs|
  {
    if gs != [] {
      ImportGoodBody(gs[0]);
      ImportGoodsBody(gs[1..]);
    }
  }

  lemma {:induction false} ImportCategoriesBody(es: seq<CategoryEntry>)
    ensures ImportBody(ImportCategories(es))
    ensures forall st :: st in ImportCategories(es) ==> st.OpenCategory? || st.Tally? || st.Raise?
    decreases |es|
  {
    if es != [] {
      ImportCategoriesBody(es[1..]);
    }
  }

  lemma ImportProgramStmts(f: PriceFile, task: Id)
    ensures forall st :: st in ImportProgram(f, task) ==> ImportStmt(st)
  {
    ImportGoodsBody(OrEmpty(f.goods));
    ImportCategoriesBody(OrEmpty(f.categories));
  }

  /** Rows of shops other than the opened one are not written. */
  ghost predicate OtherRows(c: Catalog, d: Catalog, shop: Id) {
    forall i :: i in c.infos.rows && c.infos.rows[i].shop != shop ==> i in d.infos.rows && d.infos.rows[i] == c.infos.rows[i]
  }

  lemma {:induction false} OtherRowsStay(s: Session, p: seq<Stmt>)
    requires forall st :: st in p ==> ImportStmt(st) && !st.OpenShop?
    ensures Run(s, p).regs.shop == s.regs.shop && OtherRows(s.db.catalog, Run(s, p).db.catalog, s.regs.shop)
    decreases |p|
  {
    if p != [] && s.error.None? {
      var st, c := p[0], s.db.catalog;
      assert st in p;
      if st.PatchOffer? && Ask(c, s.regs, st).Ok? {
        assert Ask(c, s.regs, st).id in InfosAt(c.infos.rows, s.regs.shop, st.extOrNull.value);
      }
      OtherRowsStay(Exec(s, st), p[1..]);
    }
  }

  lemma OpenedRowsOnly(db: Db, f: PriceFile, task: Id, k: nat)
    requires k <= |ImportProgram(f, task)|
    ensures var t := Run(Begin(db), ImportProgram(f, task)[..k]); OtherRows(db.catalog, t.db.catalog, t.regs.shop)
  {
    if k > 0 {
      var p, one := ImportProgram(f, task)[..k], OpenShop(f.shop.GetOr("Default Shop"), None);
      var rest := ImportMiddle(f) + (ImportTail(f) + [Finish(task)]);
      ImportUnfolds(f, task);
      assert p == [one] + rest[..k-1];
      RunStep(Begin(db), one, rest[..k-1]);
      ImportGoodsBody(OrEmpty(f.goods));
      ImportCategoriesBody(OrEmpty(f.categories));
      assert forall st :: st in rest[..k-1] ==> st in rest;
      OtherRowsStay(Exec(Begin(db), one), rest[..k-1]);
    }
  }

  /**
   However much of an import runs, no product row or order line appears, disappears or changes identity,
   and no row of another shop changes at all.
   */
  lemma ImportAddsNoRow(db: Db, f: PriceFile, task: Id, k: nat)
    requires ValidCatalog(db.catalog) && k <= |ImportProgram(f, task)|
    ensures var t := Run(Begin(db), ImportProgram(f, task)[..k]);
      && ValidCatalog(t.db.catalog) && SameRows(db.catalog, t.db.catalog) && t.db.sales == db.sales
      && OtherRows(db.catalog, t.db.catalog, t.regs.shop)
  {
    ImportProgramStmts(f, task);
    assert forall st :: st in ImportProgram(f, task)[..k] ==> st in ImportProgram(f, task);
    ImportKeeps(Begin(db), ImportProgram(f, task)[..k]);
    OpenedRowsOnly(db, f, task, k);
  }

  // ---------- Concatenation ----------

  lemma {:induction false} ImportGoodsAppend(gs: seq<Good>, hs: seq<Good>)
    ensures ImportGoods(gs + hs) == ImportGoods(gs) + ImportGoods(hs)
    decreases |gs|
  {
    if gs == [] {
      assert gs + hs == hs;
    } else {
      assert (gs + hs)[1..] == gs[1..] + hs;
      ImportGoodsAppend(gs[1..], hs);
    }
  }

  lemma ImportGoodsSnoc(gs: seq<Good>)
    requires gs != []
    ensures ImportGoods(gs) == ImportGoods(gs[..|gs|-1]) + ImportGood(gs[|gs|-1])
  {
    var last := [gs[|gs|-1]];
    assert gs == gs[..|gs|-1] + last;
    ImportGoodsAppend(gs[..|gs|-1], last);
    assert ImportGoods(last) == ImportGood(gs[|gs|-1]);
  }

  lemma {:induction false} ImportParametersAppend(ext: Option<int>, ps: seq<(string, Scalar)>, qs: seq<(string, Scalar)>)
    ensures ImportParameters(ext, ps + qs) == ImportParameters(ext, ps) + ImportParameters(ext, qs)
    decreases |ps|
  {
    if ps == [] {
      assert ps + qs == qs;
    } else {
      assert (ps + qs)[1..] == ps[1..] + qs;
      ImportParametersAppend(ext, ps[1..], qs);
    }
  }

  function ImportParameter(ext: Option<int>, p: (string, Scalar)): seq<Stmt> {
    [OpenParameter(p.0), FindOffer(ext), PutValue(p.1.Str()), Tally(Parameters)]
  }

  lemma ImportParametersSnoc(ext: Option<int>, ps: seq<(string, Scalar)>)
    requires ps != []
    ensures ImportParameters(ext, ps) == ImportParameters(ext, ps[..|ps|-1]) + ImportParameter(ext, ps[|ps|-1])
  {
    var last := [ps[|ps|-1]];
    assert ps == ps[..|ps|-1] + last;
    ImportParametersAppend(ext, ps[..|ps|-1], last);
    assert ImportParameters(ext, last) == ImportParameter(ext, ps[|ps|-1]);
  }
}
