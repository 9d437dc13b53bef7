/**
 What a `do_import` that dies at any statement leaves: the other lists as they were, and its shop's list
 patched by some goods of the file in full and at most one more with part of its parameters.
 */
module ImportFailure {
  import opened Prelude
  import opened Tables
  import opened Programs
  import opened PriceView
  import opened LoadResult
  import opened Recovery
  import opened LoadFailure
  import opened ImportFrame
  import opened ImportResult
  import opened ImportAgain
  import opened ImportSettles
  import opened ImportSuccess
  import opened ImportTwice
  import opened ImportPublishes

  // ---------- Prefixes of one good's statements ----------

  lemma ParameterCut(a: Abs, ext: int, p: (string, Scalar), r: nat)
    requires r <= 4 && (a.shop, ext) in a.view
    ensures var b, key := AbsRun(a, ImportParameter(Some(ext), p)[..r]), (a.shop, ext);
      && b.shop == a.shop
      && b.view == if r < 3 then a.view else a.view[key := a.view[key].(parameters := a.view[key].parameters[p.0 := p.1.Str()])]
  {
    var one, two, three := OpenParameter(p.0), FindOffer(Some(ext)), PutValue(p.1.Str());
    if r == 1 {
      assert ImportParameter(Some(ext), p)[..r] == [one] + [];
      AbsStep(a, one, []);
    } else if r == 2 {
      assert ImportParameter(Some(ext), p)[..r] == [one, two] + [];
      AbsTwoSteps(a, one, two, []);
    } else if r == 3 {
      assert ImportParameter(Some(ext), p)[..r] == [one, two] + [three] && [three] == [three] + [];
      AbsTwoSteps(a, one, two, [three]);
      AbsStep(AbsExec(AbsExec(a, one), two), three, []);
    } else if r == 4 {
      assert ImportParameter(Some(ext), p)[..r] == ImportParameter(Some(ext), p);
      AbsParameterStep(a, ext, p);
    }
  }

  lemma {:induction false} CutImportParameters(a: Abs, ext: int, ps: seq<(string, Scalar)>, k: nat) returns (j: nat)
    requires (a.shop, ext) in a.view && k <= |ImportParameters(Some(ext), ps)|
    ensures j <= |ps|
    ensures var b, key := AbsRun(a, ImportParameters(Some(ext), ps)[..k]), (a.shop, ext);
      b.shop == a.shop && b.view == a.view[key := a.view[key].(parameters := MergeAll(a.view[key].parameters, ps[..j]))]
    decreases |ps|
  {
    var key := (a.shop, ext);
    if ps == [] {
      j := 0;
      assert a.view[key := a.view[key]] == a.view;
    } else {
      var m := |ps| - 1;
      var p, q := ImportParameters(Some(ext), ps[..m]), ImportParameter(Some(ext), ps[m]);
      ImportParametersSnoc(Some(ext), ps);
      if k <= |p| {
        j := CutImportParameters(a, ext, ps[..m], k);
        assert (p + q)[..k] == p[..k] && ps[..m][..j] == ps[..j];
      } else {
        var r := k - |p|;
        assert (p + q)[..k] == p + q[..r];
        AbsRunAppend(a, p, q[..r]);
        AbsImportParameters(a, ext, ps[..m]);
        var b := AbsRun(a, p);
        ParameterCut(b, ext, ps[m], r);
        j := if r < 3 then m else m + 1;
        assert ps[..m + 1] == ps;
        if r >= 3 {
          Overwrite(a.view, key, b.view[key], a.view[key].(parameters := MergeAll(a.view[key].parameters, ps)));
        }
      }
    }
  }

  /** Nothing that a price list shows. */
  predicate Unseen(st: Stmt) {
    st.OpenShop? || st.OpenCategory? || st.FindCategory? || st.OpenProduct? || st.Tally? || st.Raise? || st.Finish?
  }

  lemma {:induction false} AbsUnseen(a: Abs, p: seq<Stmt>)
    requires forall st :: st in p ==> Unseen(st)
    ensures AbsRun(a, p).view == a.view && AbsRun(a, p).shop == a.shop
    decreases |p|
  {
    if p != [] {
      assert p[0] in p;
      AbsUnseen(AbsExec(a, p[0]), p[1..]);
    }
  }

  /** Up to the statement that writes its row a good shows nothing; a raise is not passed. */
  lemma BeforeRow(g: Good, k: nat)
    requires k <= |ImportGood(g)| && NoRaiseIn(ImportGood(g)[..k])
    ensures k < 3 ==> forall st :: st in ImportGood(g)[..k] ==> Unseen(st)
    ensures 3 <= k ==> g.category != Missing && g.name != Missing && g.id != Missing
  {
    if 3 <= k {
      assert ImportGood(g)[..k][0] == ImportGood(g)[0] && ImportGood(g)[..k][1] == ImportGood(g)[1] && ImportGood(g)[..k][2] == ImportGood(g)[2];
    }
  }

  ghost predicate NoRaiseIn(p: seq<Stmt>) {
    forall k :: 0 <= k < |p| ==> !p[k].Raise?
  }

  lemma RaiseNotPassed(q: seq<Stmt>, n: nat, i: nat)
    requires n <= |q| && i < |q| && q[i].Raise? && NoRaiseIn(q[..n])
    ensures n <= i
  {
    assert forall k :: 0 <= k < n ==> q[..n][k] == q[k];
  }

  lemma RanWithoutRaise(s: Session, p: seq<Stmt>)
    requires s.error.None? && Run(s, p).error.None?
    ensures NoRaiseIn(p)
  {
    RanNoRaise(s, p);
    assert forall k :: 0 <= k < |p| ==> p[k] in p;
  }

  /** The row statement has run: the row was there and the numbers were storable. */
  lemma RowPassed(s: Session, g: Good)
    requires s.error.None? && ValidCatalog(s.db.catalog) && g.category != Missing && g.name != Missing && g.id != Missing
    requires Run(s, ImportRow(g)[..3]).error.None?
    ensures Run(s, ImportRow(g)).error.None? && Matched(s.db.catalog, s.regs.shop, g.(parameters := Missing))
  {
    var p := ImportRow(g)[..3];
    assert ImportRow(g) == p + [Tally(Products)];
    RunAppend(s, p, [Tally(Products)]);
    RunStep(Run(s, p), Tally(Products), []);
    assert [Tally(Products)] + [] == [Tally(Products)];
    var h := g.(parameters := Missing);
    assert ImportGood(h) == ImportRow(g) + [] && ImportRow(g) + [] == ImportRow(g);
    GoodImports(s, h);
  }

  /** Some part of one good: its list entry is untouched, or patched by the good with part of its parameters. */
  lemma CutImportGood(s: Session, a: Abs, g: Good, k: nat) returns (j: nat)
    requires s.error.None? && ValidCatalog(s.db.catalog) && Match(s.db.catalog, s.regs, a)
    requires k <= |ImportGood(g)| && Run(s, ImportGood(g)[..k]).error.None?
    ensures j <= |OrEmpty(g.parameters)|
    ensures var b := AbsRun(a, ImportGood(g)[..k]);
      && b.shop == a.shop && Elsewhere(a.view, b.view, a.shop)
      && Of(b.view, a.shop) == if k < 3 then Of(a.view, a.shop) else Restock(Of(a.view, a.shop), Clip(g, j))
  {
    RanWithoutRaise(s, ImportGood(g)[..k]);
    BeforeRow(g, k);
    j := 0;
    if k < 3 {
      AbsUnseen(a, ImportGood(g)[..k]);
    } else {
      j := CutAfterRow(s, a, g, k);
    }
  }

  /** What a run that has passed the row statement says about the good. */
  lemma RowListed(s: Session, a: Abs, g: Good, k: nat)
    requires s.error.None? && ValidCatalog(s.db.catalog) && Match(s.db.catalog, s.regs, a)
    requires 3 <= k <= |ImportGood(g)| && Run(s, ImportGood(g)[..k]).error.None?
    requires g.category != Missing && g.name != Missing && g.id != Missing
    ensures Matched(s.db.catalog, s.regs.shop, g.(parameters := Missing)) && (a.shop, g.id.value) in a.view
  {
    var row, field := ImportRow(g), ImportParameterField(g.id.Get(), g.parameters);
    assert ImportGood(g) == row + field;
    assert ImportGood(g)[..k] == row[..3] + ImportGood(g)[..k][3..];
    RanHalves(s, row[..3], ImportGood(g)[..k][3..]);
    RowPassed(s, g);
    ListedInView(s.db.catalog, s.regs, a, g);
  }

  /** The view after the row statement and part of the rest. */
  lemma CutRest(s: Session, a: Abs, g: Good, k: nat) returns (j: nat)
    requires s.error.None? && 3 <= k <= |ImportGood(g)| && Run(s, ImportGood(g)[..k]).error.None?
    requires g.category != Missing && g.name != Missing && g.id.Given?
    requires var m := AbsRun(a, ImportRow(g)); m.shop == a.shop && (m.shop, g.id.value) in m.view
    ensures j <= |OrEmpty(g.parameters)|
    ensures var m, b, key := AbsRun(a, ImportRow(g)), AbsRun(a, ImportGood(g)[..k]), (a.shop, g.id.value);
      b.shop == a.shop && b.view == m.view[key := m.view[key].(parameters := MergeAll(m.view[key].parameters, OrEmpty(g.parameters)[..j]))]
  {
    var row, field := ImportRow(g), ImportParameterField(g.id.Get(), g.parameters);
    var m := AbsRun(a, row);
    assert ImportGood(g) == row + field;
    if k == 3 {
      j := 0;
      assert ImportGood(g)[..3] == row[..3] && row == row[..3] + [Tally(Products)];
      AbsRunAppend(a, row[..3], [Tally(Products)]);
      AbsUnseen(AbsRun(a, row[..3]), [Tally(Products)]);
      assert m.view[(a.shop, g.id.value) := m.view[(a.shop, g.id.value)]] == m.view;
    } else {
      Cut(row, field, k);
      AbsRunAppend(a, row, field[..k-4]);
      j := CutField(s, m, g, k - 4);
    }
  }

  lemma CutAfterRow(s: Session, a: Abs, g: Good, k: nat) returns (j: nat)
    requires s.error.None? && ValidCatalog(s.db.catalog) && Match(s.db.catalog, s.regs, a)
    requires 3 <= k <= |ImportGood(g)| && Run(s, ImportGood(g)[..k]).error.None?
    requires g.category != Missing && g.name != Missing && g.id != Missing
    ensures j <= |OrEmpty(g.parameters)|
    ensures var b := AbsRun(a, ImportGood(g)[..k]);
      && b.shop == a.shop && Elsewhere(a.view, b.view, a.shop)
      && Of(b.view, a.shop) == Restock(Of(a.view, a.shop), Clip(g, j))
  {
    RowListed(s, a, g, k);
    AbsImportRow(a, g.(parameters := Missing));
    assert ImportRow(g.(parameters := Missing)) == ImportRow(g);
    j := CutRest(s, a, g, k);
    PatchedWith(a, AbsRun(a, ImportRow(g)), AbsRun(a, ImportGood(g)[..k]), g, j);
  }

  /** Part of the parameters of a good whose row is listed. */
  lemma CutField(s: Session, b: Abs, g: Good, k: nat) returns (j: nat)
    requires g.id.Given? && (b.shop, g.id.value) in b.view
    requires k <= |ImportParameterField(g.id.Get(), g.parameters)|
    requires s.error.None? && g.category != Missing && g.name != Missing && Run(s, (ImportRow(g) + ImportParameterField(g.id.Get(), g.parameters))[..4+k]).error.None?
    ensures j <= |OrEmpty(g.parameters)|
    ensures var d, key := AbsRun(b, ImportParameterField(g.id.Get(), g.parameters)[..k]), (b.shop, g.id.value);
      d.shop == b.shop && d.view == b.view[key := b.view[key].(parameters := MergeAll(b.view[key].parameters, OrEmpty(g.parameters)[..j]))]
  {
    var p, key := (ImportRow(g) + ImportParameterField(g.id.Get(), g.parameters))[..4+k], (b.shop, g.id.value);
    j := 0;
    if g.parameters.Given? {
      j := CutImportParameters(b, g.id.value, g.parameters.value, k);
    } else {
      RanWithoutRaise(s, p);
      if g.parameters.Null? { RaiseNotPassed(ImportRow(g) + ImportParameterField(g.id.Get(), g.parameters), 4 + k, 4); }
      assert b.view[key := b.view[key]] == b.view;
    }
  }

  /** From the row and then some parameters to the patched list. */
  lemma PatchedWith(a: Abs, m: Abs, b: Abs, g: Good, j: nat)
    requires j <= |OrEmpty(g.parameters)| && g.name.Given? && g.id.Given? && (a.shop, g.id.value) in a.view
    requires NotNegative(g.price.GetOr(0)) && NotNegative(g.quantity.GetOr(0))
    requires b.shop == a.shop && m.view == a.view[(a.shop, g.id.value) := PatchedOffer(a.view[(a.shop, g.id.value)], g.(parameters := Missing))]
    requires var key := (a.shop, g.id.value);
      b.view == m.view[key := m.view[key].(parameters := MergeAll(m.view[key].parameters, OrEmpty(g.parameters)[..j]))]
    ensures Elsewhere(a.view, b.view, a.shop) && Of(b.view, a.shop) == Restock(Of(a.view, a.shop), Clip(g, j))
  {
    var key := (a.shop, g.id.value);
    var o := PatchedOffer(a.view[key], Clip(g, j));
    Overwrite(a.view, key, m.view[key], o);
    Written(a.view, a.view[key := o], a.shop, g.id.value, o);
  }

  // ---------- Prefixes of the goods loop ----------

  lemma CutHalves<T>(p: seq<T>, q: seq<T>, k: nat)
    requires k <= |p| + |q|
    ensures if k <= |p| then (p + q)[..k] == p[..k] else (p + q)[..k] == p + q[..k-|p|]
  {}

  /** A prefix of the loop's program ends before the last good or within it. */
  lemma CutPrograms(gs: seq<Good>, k: nat)
    requires gs != [] && k <= |ImportGoods(gs)|
    ensures var m := |gs| - 1; var p, q := ImportGoods(gs[..m]), ImportGood(gs[m]);
      if k <= |p| then ImportGoods(gs)[..k] == p[..k] else k - |p| <= |q| && ImportGoods(gs)[..k] == p + q[..k-|p|]
  {
    ImportGoodsSnoc(gs);
    CutHalves(ImportGoods(gs[..|gs|-1]), ImportGood(gs[|gs|-1]), k);
  }

  lemma {:induction false} CutImportGoods(s: Session, a: Abs, gs: seq<Good>, k: nat) returns (shown: seq<Good>)
    requires s.error.None? && ValidCatalog(s.db.catalog) && Match(s.db.catalog, s.regs, a)
    requires k <= |ImportGoods(gs)| && Run(s, ImportGoods(gs)[..k]).error.None?
    ensures Truncation(shown, gs)
    ensures var b := AbsRun(a, ImportGoods(gs)[..k]);
      b.shop == a.shop && Elsewhere(a.view, b.view, a.shop) && Of(b.view, a.shop) == Restocked(Of(a.view, a.shop), shown)
    decreases |gs|
  {
    if gs == [] {
      shown := [];
      assert IsCut(shown, gs, 0, 0);
    } else {
      var m := |gs| - 1;
      CutPrograms(gs, k);
      if k <= |ImportGoods(gs[..m])| {
        shown := CutImportGoods(s, a, gs[..m], k);
        CutWider(shown, gs, m);
      } else {
        shown := CutLastGood(s, a, gs, k - |ImportGoods(gs[..m])|);
      }
    }
  }

  lemma CutLastGood(s: Session, a: Abs, gs: seq<Good>, r: nat) returns (shown: seq<Good>)
    requires s.error.None? && ValidCatalog(s.db.catalog) && Match(s.db.catalog, s.regs, a)
    requires gs != [] && r <= |ImportGood(gs[|gs|-1])|
    requires Run(s, ImportGoods(gs[..|gs|-1]) + ImportGood(gs[|gs|-1])[..r]).error.None?
    ensures Truncation(shown, gs)
    ensures var b := AbsRun(a, ImportGoods(gs[..|gs|-1]) + ImportGood(gs[|gs|-1])[..r]);
      b.shop == a.shop && Elsewhere(a.view, b.view, a.shop) && Of(b.view, a.shop) == Restocked(Of(a.view, a.shop), shown)
  {
    var m := |gs| - 1;
    var init, last := gs[..m], gs[m];
    var p, q := ImportGoods(init), ImportGood(last)[..r];
    RanHalves(s, p, q);
    GoodsSettle(s, a, init);
    GoodsRestock(s, a, init);
    AbsRunAppend(a, p, q);
    var b := AbsRun(a, p);
    var j := CutImportGood(Run(s, p), b, last, r);
    StillElsewhere(a.view, b.view, AbsRun(b, q).view, a.shop);
    shown := if r < 3 then init else init + [Clip(last, j)];
    assert (init + [Clip(last, j)])[..m] == init;
    assert IsCut(shown, gs, m, j);
  }

  // ---------- A crash at any statement ----------

  /** A crash before the first good. */
  lemma HeadCut(db: Db, f: PriceFile, k: nat)
    requires ValidCatalog(db.catalog) && k <= |ImportHead(f)|
    ensures ViewOf(Run(Begin(db), ImportHead(f)[..k]).db.catalog) == ViewOf(db.catalog)
  {
    ImportCategoriesBody(OrEmpty(f.categories));
    assert forall st :: st in ImportHead(f)[..k] ==> st in ImportHead(f);
    HeadShowsNothing(Begin(db), ImportHead(f)[..k]);
  }

  /** A crash among the goods. */
  lemma GoodsCut(u: Session, gs: seq<Good>, n: nat) returns (shown: seq<Good>)
    requires u.error.None? && ValidCatalog(u.db.catalog) && n <= |ImportGoods(gs)| && Run(u, ImportGoods(gs)[..n]).error.None?
    ensures Truncation(shown, gs)
    ensures var c, d, shop := u.db.catalog, Run(u, ImportGoods(gs)[..n]).db.catalog, u.regs.shop;
      && PriceList(d, shop) == Restocked(PriceList(c, shop), shown)
      && (forall other | other != shop :: PriceList(d, other) == PriceList(c, other))
  {
    var a, p := AbsOf(u.db.catalog, u.regs), ImportGoods(gs)[..n];
    shown := CutImportGoods(u, a, gs, n);
    ImportGoodsBody(gs);
    assert forall st :: st in p ==> st in ImportGoods(gs);
    RunRefines(u, a, p);
    PriceListIsView(u.db.catalog, u.regs.shop);
    ListsFromViews(u.db.catalog, Run(u, p).db.catalog, u.regs.shop);
  }

  lemma TailHalves(f: PriceFile, task: Id, k: nat) returns (n: nat, q: seq<Stmt>)
    requires k <= |ImportTail(f) + [Finish(task)]|
    ensures n <= |ImportTail(f)| && (ImportTail(f) + [Finish(task)])[..k] == ImportTail(f)[..n] + q && (q == [] || q == [Finish(task)])
  {
    n := if k <= |ImportTail(f)| then k else |ImportTail(f)|;
    q := if k <= |ImportTail(f)| then [] else [Finish(task)];
  }

  /** A crash among the goods, or after them. */
  lemma TailCut(u: Session, f: PriceFile, task: Id, k: nat) returns (shown: seq<Good>)
    requires u.error.None? && ValidCatalog(u.db.catalog)
    requires k <= |ImportTail(f) + [Finish(task)]| && Run(u, (ImportTail(f) + [Finish(task)])[..k]).error.None?
    ensures Truncation(shown, OrEmpty(f.goods))
    ensures var t := Run(u, (ImportTail(f) + [Finish(task)])[..k]); var c, d, shop := u.db.catalog, t.db.catalog, u.regs.shop;
      && PriceList(d, shop) == Restocked(PriceList(c, shop), shown)
      && (forall other | other != shop :: PriceList(d, other) == PriceList(c, other))
  {
    var gs, p := OrEmpty(f.goods), ImportTail(f);
    var n, q := TailHalves(f, task, k);
    RanHalves(u, p[..n], q);
    RanWithoutRaise(u, p[..n]);
    if f.goods.Null? { RaiseNotPassed(p, n, 0); }
    assert p[..n] == ImportGoods(gs)[..n];
    shown := GoodsCut(u, gs, n);
    FinishShowsNothing(Run(u, p[..n]), task, q);
  }

  lemma FinishShowsNothing(v: Session, task: Id, q: seq<Stmt>)
    requires v.error.None? && (q == [] || q == [Finish(task)])
    ensures Run(v, q).db.catalog == v.db.catalog
  {
    if q == [Finish(task)] { FinishRuns(v, task); }
  }

  lemma StoppedInTail(db: Db, f: PriceFile, task: Id, r: nat) returns (shown: seq<Good>)
    requires ValidCatalog(db.catalog) && r <= |ImportTail(f) + [Finish(task)]|
    requires Run(Begin(db), ImportHead(f) + (ImportTail(f) + [Finish(task)])[..r]).error.None?
    ensures Truncation(shown, OrEmpty(f.goods))
    ensures var t := Run(Begin(db), ImportHead(f) + (ImportTail(f) + [Finish(task)])[..r]); var c, d, shop := db.catalog, t.db.catalog, t.regs.shop;
      && PriceList(d, shop) == Restocked(PriceList(c, shop), shown)
      && (forall other | other != shop :: PriceList(d, other) == PriceList(c, other))
  {
    var s, head, rest := Begin(db), ImportHead(f), ImportTail(f) + [Finish(task)];
    RanHalves(s, head, rest[..r]);
    HeadSettles(db, f);
    var u := Run(s, head);
    shown := TailCut(u, f, task, r);
    assert head[..|head|] == head;
    HeadCut(db, f, |head|);
    SameLists(db.catalog, u.db.catalog);
    RestKeepsShop(u, f, task, r);
  }

  /**
   Wherever `do_import` stops, the store is well-formed and no other shop's list has changed; the shop's
   is the old one, patched by some goods of the file in full and at most one more whose parameters may
   be incomplete.
   */
  lemma StoppedImport(db: Db, f: PriceFile, task: Id, k: nat) returns (shown: seq<Good>)
    requires ValidCatalog(db.catalog)
    requires k <= |ImportProgram(f, task)| && Run(Begin(db), ImportProgram(f, task)[..k]).error.None?
    ensures Truncation(shown, OrEmpty(f.goods))
    ensures var t := Run(Begin(db), ImportProgram(f, task)[..k]); var c, d, shop := db.catalog, t.db.catalog, t.regs.shop;
      && ValidCatalog(d)
      && PriceList(d, shop) == Restocked(PriceList(c, shop), shown)
      && (forall other | other != shop :: PriceList(d, other) == PriceList(c, other))
  {
    var head, rest := ImportHead(f), ImportTail(f) + [Finish(task)];
    ImportAddsNoRow(db, f, task, k);
    assert ImportProgram(f, task) == head + rest;
    if k <= |head| {
      shown := [];
      assert IsCut(shown, OrEmpty(f.goods), 0, 0);
      assert ImportProgram(f, task)[..k] == head[..k];
      HeadCut(db, f, k);
      SameLists(db.catalog, Run(Begin(db), head[..k]).db.catalog);
    } else {
      assert ImportProgram(f, task)[..k] == head + rest[..k-|head|];
      shown := StoppedInTail(db, f, task, k - |head|);
    }
  }

  lemma RestKeepsShop(u: Session, f: PriceFile, task: Id, k: nat)
    requires k <= |ImportTail(f) + [Finish(task)]|
    ensures Run(u, (ImportTail(f) + [Finish(task)])[..k]).regs.shop == u.regs.shop
  {
    var rest := ImportTail(f) + [Finish(task)];
    ImportGoodsBody(OrEmpty(f.goods));
    assert forall st :: st in rest[..k] ==> st in rest;
    RunKeepsShop(u, rest[..k]);
  }

  lemma SameLists(c: Catalog, d: Catalog)
    requires ViewOf(c) == ViewOf(d)
    ensures forall x :: PriceList(c, x) == PriceList(d, x)
  {
    forall x ensures PriceList(c, x) == PriceList(d, x) {
      PriceListIsView(c, x);
      PriceListIsView(d, x);
    }
  }
}
