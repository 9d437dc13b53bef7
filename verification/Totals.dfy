/**
 Order totals are computed from live prices, so every import moves them.  By how much, exactly, for
 baskets and confirmed orders alike.
 */
module Totals {
  import opened Prelude
  import opened Tables
  import opened Orm
  import opened Programs
  import opened PriceView
  import opened LoadResult
  import opened Recovery
  import opened ImportFrame
  import opened ImportResult
  import opened ImportAgain
  import opened ImportSettles
  import opened ImportTwice

  // ---------- Finite sums ----------

  ghost function Sum<K>(m: map<K, int>): int
    decreases |m|
  {
    if m == map[] then 0
    else
      var k := Any(m.Keys);
      m[k] + Sum(m - {k})
  }

  lemma {:induction false} SumRemove<K>(m: map<K, int>, k: K)
    requires k in m
    ensures Sum(m) == m[k] + Sum(m - {k})
    decreases |m|
  {
    var j := Any(m.Keys);
    if j != k {
      SumRemove(m - {j}, k);
      SumRemove(m - {k}, j);
      assert m - {j} - {k} == m - {k} - {j};
    }
  }

  /** A sum splits over any division of its keys. */
  lemma {:induction false} SumSplit<K>(m: map<K, int>, part: set<K>)
    ensures Sum(m) == Sum(map k | k in m && k in part :: m[k]) + Sum(m - part)
    decreases |m|
  {
    var inner := map k | k in m && k in part :: m[k];
    if m == map[] {
      assert inner == map[] && m - part == map[];
    } else {
      var k := Any(m.Keys);
      SumSplit(m - {k}, part);
      var inner' := map j | j in m - {k} && j in part :: (m - {k})[j];
      if k in part {
        SumRemove(inner, k);
        assert inner - {k} == inner' && (m - {k}) - part == m - part;
      } else {
        SumRemove(m - part, k);
        assert inner == inner' && (m - part) - {k} == (m - {k}) - part;
      }
    }
  }

  /** The difference of two sums over the same keys is the sum of the differences. */
  lemma {:induction false} SumDifference<K>(m: map<K, int>, n: map<K, int>)
    requires m.Keys == n.Keys
    ensures Sum(m) - Sum(n) == Sum(map k | k in m :: m[k] - n[k])
    decreases |m|
  {
    var d := map k | k in m :: m[k] - n[k];
    if m == map[] {
      assert n == map[] && d == map[];
    } else {
      var k := Any(m.Keys);
      SumRemove(m, k);
      SumRemove(n, k);
      SumRemove(d, k);
      SumDifference(m - {k}, n - {k});
      assert d - {k} == map j | j in m - {k} :: (m - {k})[j] - (n - {k})[j];
    }
  }

  // ---------- Totals ----------

  /** quantity * price, 0 without a product row */
  function LineTotal(infos: map<Id, Info>, line: Line): int {
    if line.info in infos then line.quantity * infos[line.info].price else 0
  }

  function LineTotals(infos: map<Id, Info>, lines: map<Id, Line>, order: Id): map<Id, int> {
    map l | l in lines && lines[l].order == order :: LineTotal(infos, lines[l])
  }

  ghost function OrderTotal(db: Db, order: Id): int {
    Sum(LineTotals(db.catalog.infos.rows, db.sales.lines.rows, order))
  }

  // ---------- load_data ----------

  /** Rows of other shops are the same rows. */
  ghost predicate OthersSame(c: Catalog, d: Catalog, shop: Id) {
    && (forall i :: i in c.infos.rows && c.infos.rows[i].shop != shop ==> i in d.infos.rows && d.infos.rows[i] == c.infos.rows[i])
    && (forall i :: i in d.infos.rows && d.infos.rows[i].shop != shop ==> i in c.infos.rows && d.infos.rows[i] == c.infos.rows[i])
  }

  lemma LoadStmtFrame(s: Session, st: Stmt)
    requires LoadStmt(st) && !st.OpenShop? && !st.ClearOffers? && s.db.catalog.infos.Fresh()
    ensures var t := Exec(s, st);
      && t.db.sales == s.db.sales && t.regs.shop == s.regs.shop && OthersSame(s.db.catalog, t.db.catalog, s.regs.shop)
      && t.db.catalog.infos.Fresh()
  {
    var c, r := s.db.catalog, s.regs;
    if st.PutOffer? && Ask(c, r, st).Ok? && Lookup(InfosAt(c.infos.rows, r.shop, st.ext)).One? {
      assert Ask(c, r, st).id in InfosAt(c.infos.rows, r.shop, st.ext);
    }
  }

  lemma {:induction false} LoadRestFrame(s: Session, p: seq<Stmt>)
    requires LoadRest(p) && s.db.catalog.infos.Fresh()
    ensures var t := Run(s, p);
      && t.db.sales == s.db.sales && t.regs.shop == s.regs.shop && OthersSame(s.db.catalog, t.db.catalog, s.regs.shop)
    decreases |p|
  {
    if p != [] && s.error.None? {
      assert p[0] in p;
      LoadStmtFrame(s, p[0]);
      LoadRestFrame(Exec(s, p[0]), p[1..]);
    }
  }

  lemma {:induction false} QuietCategoriesFrame(s: Session, p: seq<Stmt>)
    requires forall st :: st in p ==> st.OpenCategory? || st.LinkCategory? || st.Raise?
    ensures var t := Run(s, p); t.db.sales == s.db.sales && t.regs.shop == s.regs.shop && t.db.catalog.infos == s.db.catalog.infos
    decreases |p|
  {
    if p != [] && s.error.None? {
      assert p[0] in p;
      QuietCategoriesFrame(Exec(s, p[0]), p[1..]);
    }
  }

  /** The part of `load_data` between opening the shop and the deletion, the deletion, and some of the goods. */
  lemma ClearedFrame(s: Session, middle: seq<Stmt>, rest: seq<Stmt>)
    requires s.error.None? && s.db.catalog.infos.Fresh() && LoadRest(rest)
    requires forall st :: st in middle ==> st.OpenCategory? || st.LinkCategory? || st.Raise?
    requires Run(s, middle + ([ClearOffers] + rest)).error.None?
    ensures var t := Run(s, middle + ([ClearOffers] + rest));
      && t.regs.shop == s.regs.shop && OthersSame(s.db.catalog, t.db.catalog, s.regs.shop)
      && t.db.sales == DropLines(s.db.sales, InfosOf(s.db.catalog.infos.rows, s.regs.shop))
  {
    RanHalves(s, middle, [ClearOffers] + rest);
    QuietCategoriesFrame(s, middle);
    var u := Run(s, middle);
    RanFirst(u, ClearOffers, rest);
    LoadRestFrame(Exec(u, ClearOffers), rest);
  }

  lemma MiddleQuiet(f: PriceFile)
    ensures forall st :: st in LoadMiddle(f) ==> st.OpenCategory? || st.LinkCategory? || st.Raise?
  {
    QuietCategories(OrEmpty(f.categories));
  }

  lemma ProgramCut(f: PriceFile, user: Option<Id>, k: nat)
    requires Deletion(f, user) <= k <= |LoadProgram(f, user)|
    ensures LoadProgram(f, user)[..k] ==
      [OpenShop(f.shop.Get(), TruthyUser(user))] + (LoadMiddle(f) + ([ClearOffers] + LoadTail(f)[..k - Deletion(f, user)]))
  {
    Cut(LoadHead(f, user), LoadTail(f), k);
    HeadSplits([OpenShop(f.shop.Get(), TruthyUser(user))], LoadMiddle(f), [ClearOffers], LoadTail(f)[..k - Deletion(f, user)]);
  }

  lemma HeadSplits(p: seq<Stmt>, q: seq<Stmt>, r: seq<Stmt>, t: seq<Stmt>)
    ensures (p + q + r) + t == p + (q + (r + t))
  {}

  /** What the deletion and everything after it does to rows of other shops and to order lines. */
  lemma LoadFrame(db: Db, f: PriceFile, user: Option<Id>, k: nat)
    requires ValidCatalog(db.catalog)
    requires Deletion(f, user) <= k <= |LoadProgram(f, user)| && Run(Begin(db), LoadProgram(f, user)[..k]).error.None?
    ensures var t := Run(Begin(db), LoadProgram(f, user)[..k]);
      && OthersSame(db.catalog, t.db.catalog, t.regs.shop)
      && t.db.sales == DropLines(db.sales, InfosOf(db.catalog.infos.rows, t.regs.shop))
  {
    var s, one := Begin(db), OpenShop(f.shop.Get(), TruthyUser(user));
    var rest := LoadTail(f)[..k - Deletion(f, user)];
    ProgramCut(f, user, k);
    RanFirst(s, one, LoadMiddle(f) + ([ClearOffers] + rest));
    LoadTailRest(f);
    assert forall st :: st in rest ==> st in LoadTail(f);
    MiddleQuiet(f);
    ClearedFrame(Exec(s, one), LoadMiddle(f), rest);
  }

  /** The lines of an order that hold a shop's rows. */
  ghost function ShopLines(infos: map<Id, Info>, lines: map<Id, Line>, order: Id, shop: Id): map<Id, int> {
    map l | l in lines && lines[l].order == order && lines[l].info in InfosOf(infos, shop) :: LineTotal(infos, lines[l])
  }

  lemma TotalsAfterDrop(infos: map<Id, Info>, infos': map<Id, Info>, lines: map<Id, Line>, shop: Id, order: Id)
    requires forall l :: l in lines ==> lines[l].info in infos
    requires forall i :: i in infos && infos[i].shop != shop ==> i in infos' && infos'[i] == infos[i]
    ensures var doomed := set l | l in lines && lines[l].info in InfosOf(infos, shop);
      Sum(LineTotals(infos', lines - doomed, order)) == Sum(LineTotals(infos, lines, order)) - Sum(ShopLines(infos, lines, order, shop))
  {
    var doomed := set l | l in lines && lines[l].info in InfosOf(infos, shop);
    var all := LineTotals(infos, lines, order);
    SumSplit(all, doomed);
    assert (map l | l in all && l in doomed :: all[l]) == ShopLines(infos, lines, order, shop);
    var left, kept := LineTotals(infos', lines - doomed, order), all - doomed;
    assert forall l :: l in left <==> l in kept;
    forall l | l in left ensures left[l] == kept[l] {
      assert lines[l].info !in InfosOf(infos, shop);
    }
    assert left == kept;
  }

  /**
   Conservation: once `load_data` has deleted the shop's rows (in particular, when it succeeds), every
   order's total is down by exactly what its lines from the shop were worth, its other lines are the
   same lines, and no order row has changed.
   */
  lemma LoadConservesTotals(db: Db, f: PriceFile, user: Option<Id>, k: nat, order: Id)
    requires ValidCatalog(db.catalog) && LinesListed(db.catalog, db.sales)
    requires Deletion(f, user) <= k <= |LoadProgram(f, user)| && Run(Begin(db), LoadProgram(f, user)[..k]).error.None?
    ensures var t := Run(Begin(db), LoadProgram(f, user)[..k]);
      var infos, lines := db.catalog.infos.rows, db.sales.lines.rows;
      && OrderTotal(t.db, order) == OrderTotal(db, order) - Sum(ShopLines(infos, lines, order, t.regs.shop))
      && t.db.sales.lines.rows == (map l | l in lines && infos[lines[l].info].shop != t.regs.shop :: lines[l])
      && t.db.sales.orders == db.sales.orders && t.db.sales.contacts == db.sales.contacts
  {
    var t := Run(Begin(db), LoadProgram(f, user)[..k]);
    LoadFrame(db, f, user, k);
    TotalsAfterDrop(db.catalog.infos.rows, t.db.catalog.infos.rows, db.sales.lines.rows, t.regs.shop, order);
  }

  // ---------- do_import ----------

  /** Quantities times price changes, over the lines of an order. */
  function Moves(infos: map<Id, Info>, infos': map<Id, Info>, lines: map<Id, Line>, order: Id): map<Id, int>
    requires forall l :: l in lines ==> lines[l].info in infos && lines[l].info in infos'
  {
    map l | l in lines && lines[l].order == order ::
      lines[l].quantity * (infos'[lines[l].info].price - infos[lines[l].info].price)
  }

  lemma TotalsMove(infos: map<Id, Info>, infos': map<Id, Info>, lines: map<Id, Line>, order: Id)
    requires forall l :: l in lines ==> lines[l].info in infos && lines[l].info in infos'
    ensures Sum(LineTotals(infos', lines, order)) - Sum(LineTotals(infos, lines, order)) == Sum(Moves(infos, infos', lines, order))
  {
    var m, n := LineTotals(infos', lines, order), LineTotals(infos, lines, order);
    SumDifference(m, n);
    var d := map l | l in m :: m[l] - n[l];
    forall l | l in m ensures d[l] == Moves(infos, infos', lines, order)[l] {
      Distribute(lines[l].quantity, infos'[lines[l].info].price, infos[lines[l].info].price);
    }
    assert d == Moves(infos, infos', lines, order);
  }

  lemma Distribute(q: int, a: int, b: int)
    ensures q * a - q * b == q * (a - b)
  {}

  /** Wherever an import stops, an order's total has moved by its quantities times the price changes so far. */
  lemma ImportMovesTotals(db: Db, f: PriceFile, task: Id, k: nat, order: Id)
    requires ValidCatalog(db.catalog) && LinesListed(db.catalog, db.sales) && k <= |ImportProgram(f, task)|
    ensures var t := Run(Begin(db), ImportProgram(f, task)[..k]);
      && t.db.sales == db.sales && LinesListed(t.db.catalog, t.db.sales)
      && OrderTotal(t.db, order) ==
           OrderTotal(db, order) + Sum(Moves(db.catalog.infos.rows, t.db.catalog.infos.rows, db.sales.lines.rows, order))
  {
    ImportAddsNoRow(db, f, task, k);
    TotalsMove(db.catalog.infos.rows, Run(Begin(db), ImportProgram(f, task)[..k]).db.catalog.infos.rows, db.sales.lines.rows, order);
  }

  // ---------- The prices a successful do_import ends with ----------

  /** A row no statement of the program names stays as it is. */
  ghost predicate Unpatched(p: seq<Stmt>, row: Info, shop: Id) {
    row.shop == shop ==> forall st :: st in p && st.PatchOffer? ==> st.extOrNull != Some(row.ext)
  }

  lemma {:induction false} UnpatchedRow(s: Session, p: seq<Stmt>, i: Id)
    requires ImportBody(p) && i in s.db.catalog.infos.rows && Unpatched(p, s.db.catalog.infos.rows[i], s.regs.shop)
    ensures var d := Run(s, p).db.catalog; i in d.infos.rows && d.infos.rows[i] == s.db.catalog.infos.rows[i]
    decreases |p|
  {
    if p != [] && s.error.None? {
      var st, c := p[0], s.db.catalog;
      assert st in p;
      if st.PatchOffer? && Ask(c, s.regs, st).Ok? {
        assert Ask(c, s.regs, st).id in InfosAt(c.infos.rows, s.regs.shop, st.extOrNull.value);
      }
      assert forall x :: x in p[1..] ==> x in p;
      UnpatchedRow(Exec(s, st), p[1..], i);
    }
  }

  lemma {:induction false} PatchedIds(gs: seq<Good>, ext: int)
    requires forall g :: g in gs ==> g.id != Given(ext)
    ensures forall st :: st in ImportGoods(gs) && st.PatchOffer? ==> st.extOrNull != Some(ext)
    decreases |gs|
  {
    if gs != [] {
      assert gs[0] in gs && forall g :: g in gs[1..] ==> g in gs;
      ParametersPatchNothing(gs[0].id.Get(), OrEmpty(gs[0].parameters));
      PatchedIds(gs[1..], ext);
    }
  }

  lemma {:induction false} ParametersPatchNothing(ext: Option<int>, ps: seq<(string, Scalar)>)
    ensures forall st :: st in ImportParameters(ext, ps) ==> !st.PatchOffer?
    decreases |ps|
  {
    if ps != [] {
      ParametersPatchNothing(ext, ps[1..]);
    }
  }

  /** The price after the last good with the row's id, if the row is the shop's and the file mentions it. */
  ghost function FinalPrice(row: Info, shop: Id, gs: seq<Good>): int {
    var g := LastFor(gs, row.ext);
    if row.shop == shop && g.Some? && g.value.price != Null then g.value.price.GetOr(0).value else row.price
  }

  lemma {:induction false} NotLast(gs: seq<Good>, ext: int)
    requires LastFor(gs, ext).None?
    ensures forall g :: g in gs ==> g.id != Given(ext)
    decreases |gs|
  {
    if gs != [] {
      NotLast(gs[..|gs|-1], ext);
      assert gs == gs[..|gs|-1] + [gs[|gs|-1]];
    }
  }

  lemma {:induction false} HeadPatchesNothing(s: Session, p: seq<Stmt>)
    requires forall st :: st in p ==> st.OpenShop? || st.OpenCategory? || st.Tally? || st.Raise?
    ensures Run(s, p).db.catalog.infos == s.db.catalog.infos
    decreases |p|
  {
    if p != [] && s.error.None? {
      assert p[0] in p;
      HeadPatchesNothing(Exec(s, p[0]), p[1..]);
    }
  }

  /** With no good that mentions it, a row comes through a successful import unchanged. */
  lemma UnmentionedRow(db: Db, f: PriceFile, task: Id, i: Id)
    requires Run(Begin(db), ImportProgram(f, task)).error.None? && i in db.catalog.infos.rows
    requires var shop := Run(Begin(db), ImportProgram(f, task)).regs.shop;
      db.catalog.infos.rows[i].shop == shop ==> LastFor(OrEmpty(f.goods), db.catalog.infos.rows[i].ext).None?
    ensures var d := Run(Begin(db), ImportProgram(f, task)).db.catalog;
      i in d.infos.rows && d.infos.rows[i] == db.catalog.infos.rows[i]
  {
    var s, head, tail := Begin(db), ImportHead(f), ImportTail(f);
    RanHalves(s, head + tail, [Finish(task)]);
    RanHalves(s, head, tail);
    ImportCategoriesBody(OrEmpty(f.categories));
    HeadPatchesNothing(s, head);
    var u := Run(s, head);
    var row, gs := db.catalog.infos.rows[i], OrEmpty(f.goods);
    ImportGoodsBody(gs);
    RunKeepsShop(u, tail);
    FinishRuns(Run(u, tail), task);
    if row.shop == u.regs.shop {
      NotLast(gs, row.ext);
      PatchedIds(gs, row.ext);
    }
    UnpatchedRow(u, tail, i);
  }

  /** After a successful import every row has its final price: the last mention's, or the old one. */
  lemma ImportedPrices(db: Db, f: PriceFile, task: Id, i: Id)
    requires ValidCatalog(db.catalog) && Run(Begin(db), ImportProgram(f, task)).error.None? && i in db.catalog.infos.rows
    ensures var t := Run(Begin(db), ImportProgram(f, task));
      && i in t.db.catalog.infos.rows
      && t.db.catalog.infos.rows[i].price == FinalPrice(db.catalog.infos.rows[i], t.regs.shop, OrEmpty(f.goods))
  {
    var t, row := Run(Begin(db), ImportProgram(f, task)), db.catalog.infos.rows[i];
    var p := ImportProgram(f, task);
    ImportAddsNoRow(db, f, task, |p|);
    assert p[..|p|] == p;
    if row.shop == t.regs.shop && LastFor(OrEmpty(f.goods), row.ext).Some? {
      ImportSettlesStore(db, f, task);
      RowAt(t.db.catalog, i);
      assert i in InfosAt(t.db.catalog.infos.rows, row.shop, row.ext);
      ListedRow(t.db.catalog, row.shop, row.ext, i);
      assert SameColumns(PriceList(t.db.catalog, row.shop)[row.ext], LastFor(OrEmpty(f.goods), row.ext).value);
    } else {
      UnmentionedRow(db, f, task, i);
    }
  }

  /** Quantities times (final price minus old price), over the lines of an order. */
  ghost function FinalMoves(infos: map<Id, Info>, lines: map<Id, Line>, order: Id, shop: Id, gs: seq<Good>): map<Id, int>
    requires forall l :: l in lines ==> lines[l].info in infos
  {
    map l | l in lines && lines[l].order == order ::
      lines[l].quantity * (FinalPrice(infos[lines[l].info], shop, gs) - infos[lines[l].info].price)
  }

  /** On success every order's total moves by the sum of line quantity times (final price minus old price). */
  lemma ImportConservesTotals(db: Db, f: PriceFile, task: Id, order: Id)
    requires ValidCatalog(db.catalog) && LinesListed(db.catalog, db.sales) && Run(Begin(db), ImportProgram(f, task)).error.None?
    ensures var t := Run(Begin(db), ImportProgram(f, task));
      OrderTotal(t.db, order) == OrderTotal(db, order) +
        Sum(FinalMoves(db.catalog.infos.rows, db.sales.lines.rows, order, t.regs.shop, OrEmpty(f.goods)))
  {
    var p := ImportProgram(f, task);
    assert p[..|p|] == p;
    ImportMovesTotals(db, f, task, |p|, order);
    PricesAreFinal(db, f, task, order);
  }

  lemma PricesAreFinal(db: Db, f: PriceFile, task: Id, order: Id)
    requires ValidCatalog(db.catalog) && LinesListed(db.catalog, db.sales) && Run(Begin(db), ImportProgram(f, task)).error.None?
    ensures var infos, t := db.catalog.infos.rows, Run(Begin(db), ImportProgram(f, task)); var infos' := t.db.catalog.infos.rows;
      && (forall i :: i in infos ==> i in infos')
      && Moves(infos, infos', db.sales.lines.rows, order) == FinalMoves(infos, db.sales.lines.rows, order, t.regs.shop, OrEmpty(f.goods))
  {
    var t := Run(Begin(db), ImportProgram(f, task));
    var infos, infos' := db.catalog.infos.rows, t.db.catalog.infos.rows;
    forall i | i in infos ensures i in infos' && infos'[i].price == FinalPrice(infos[i], t.regs.shop, OrEmpty(f.goods)) {
      ImportedPrices(db, f, task, i);
    }
    SameMoves(infos, infos', db.sales.lines.rows, order, t.regs.shop, OrEmpty(f.goods));
  }

  lemma SameMoves(infos: map<Id, Info>, infos': map<Id, Info>, lines: map<Id, Line>, order: Id, shop: Id, gs: seq<Good>)
    requires forall l :: l in lines ==> lines[l].info in infos
    requires forall i :: i in infos ==> i in infos' && infos'[i].price == FinalPrice(infos[i], shop, gs)
    ensures Moves(infos, infos', lines, order) == FinalMoves(infos, lines, order, shop, gs)
  {
    var m, n := Moves(infos, infos', lines, order), FinalMoves(infos, lines, order, shop, gs);
    assert forall l :: l in m <==> l in n;
    forall l | l in m ensures m[l] == n[l] {}
  }

  // ---------- What a total is ----------

  /** An order's total adds up: nothing for no lines, and quantity times live price for each line. */
  lemma TotalAddsUp(db: Db, order: Id, l: Id)
    requires LinesListed(db.catalog, db.sales)
    ensures (forall m :: m in db.sales.lines.rows ==> db.sales.lines.rows[m].order != order) ==> OrderTotal(db, order) == 0
    ensures l in db.sales.lines.rows && db.sales.lines.rows[l].order == order ==>
      var rest := db.(sales := db.sales.(lines := Table(db.sales.lines.rows - {l}, db.sales.lines.next))); var line := db.sales.lines.rows[l];
      OrderTotal(db, order) == line.quantity * db.catalog.infos.rows[line.info].price + OrderTotal(rest, order)
  {
    var infos, lines := db.catalog.infos.rows, db.sales.lines.rows;
    var all := LineTotals(infos, lines, order);
    if l in lines && lines[l].order == order {
      SumRemove(all, l);
      assert LineTotals(infos, lines - {l}, order) == all - {l};
    }
    if forall m :: m in lines ==> lines[m].order != order { assert all == map[]; }
  }
}
