/**
 `do_import` on a store that already has every row the file mentions: it succeeds, and its effect is a
 function of the store and the goods, computed row by row from the last mention.
 */
module ImportResult {
  import opened Prelude
  import opened Tables
  import opened Orm
  import opened Programs
  import opened PriceView
  import opened LoadSuccess
  import opened ImportFrame

  // ---------- Last mentions ----------

  ghost function LastFor(gs: seq<Good>, ext: int): Option<Good> {
    if gs == [] then None
    else
      var g := gs[|gs|-1];
      if g.id == Given(ext) then Some(g) else LastFor(gs[..|gs|-1], ext)
  }

  ghost function LastParameter(ps: seq<(string, Scalar)>, name: string): Option<string> {
    if ps == [] then None
    else
      var p := ps[|ps|-1];
      if p.0 == name then Some(p.1.Str()) else LastParameter(ps[..|ps|-1], name)
  }

  ghost function LastTextFor(gs: seq<Good>, ext: int, name: string): Option<string> {
    if gs == [] then None
    else
      var g := gs[|gs|-1];
      if g.id == Given(ext) && LastParameter(OrEmpty(g.parameters), name).Some? then
        LastParameter(OrEmpty(g.parameters), name)
      else LastTextFor(gs[..|gs|-1], ext, name)
  }

  // ---------- The effect, row by row ----------

  ghost function ProductId(c: Catalog, name: Field<string>): Id {
    match Lookup(ProductsNamed(c.products.rows, if name.Given? then name.value else ""))
    case One(p) => p
    case _ => 0
  }

  ghost function PatchedRow(c: Catalog, shop: Id, gs: seq<Good>, row: Info): Info {
    var g := LastFor(gs, row.ext);
    if row.shop == shop && g.Some? && g.value.price != Null && g.value.quantity != Null then
      row.(product := ProductId(c, g.value.name), price := g.value.price.GetOr(0).value, quantity := g.value.quantity.GetOr(0).value)
    else row
  }

  ghost function PatchedValue(c: Catalog, shop: Id, gs: seq<Good>, v: ParamValue): ParamValue {
    if v.info in c.infos.rows && v.parameter in c.parameters.rows && c.infos.rows[v.info].shop == shop then
      (match LastTextFor(gs, c.infos.rows[v.info].ext, c.parameters.rows[v.parameter].name)
       case Some(text) => v.(text := text)
       case None => v)
    else v
  }

  ghost function Patched(c: Catalog, shop: Id, gs: seq<Good>): Catalog {
    c.(infos := Table(map i | i in c.infos.rows :: PatchedRow(c, shop, gs, c.infos.rows[i]), c.infos.next),
       values := Table(map v | v in c.values.rows :: PatchedValue(c, shop, gs, c.values.rows[v]), c.values.next))
  }

  // ---------- Warm stores ----------

  ghost predicate WarmParameter(c: Catalog, i: Id, name: string) {
    TextAt(c.parameters.rows, c.values.rows, i, name).Some?
  }

  /** Everything that importing this good looks up is there, and its numbers are storable. */
  ghost predicate WarmGood(c: Catalog, shop: Id, g: Good) {
    && g.category.Given? && g.category.value in c.categories.rows
    && g.name.Given? && HasProduct(c, g.name.value)
    && g.id.Given? && InfosAt(c.infos.rows, shop, g.id.value) != {}
    && g.price != Null && 0 <= g.price.GetOr(0).value && g.quantity != Null && 0 <= g.quantity.GetOr(0).value
    && g.parameters != Null
    && forall i, p | i in InfosAt(c.infos.rows, shop, g.id.value) && p in OrEmpty(g.parameters) :: WarmParameter(c, i, p.0)
  }

  ghost predicate Warm(c: Catalog, shop: Id, gs: seq<Good>) {
    forall g :: g in gs ==> WarmGood(c, shop, g)
  }

  lemma PatchedShape(c: Catalog, shop: Id, gs: seq<Good>)
    ensures var d := Patched(c, shop, gs);
      && (forall s, e :: InfosAt(d.infos.rows, s, e) == InfosAt(c.infos.rows, s, e))
      && (forall i, p :: ValuesAt(d.values.rows, i, p) == ValuesAt(c.values.rows, i, p))
  {
    var d := Patched(c, shop, gs);
    forall s, e ensures InfosAt(d.infos.rows, s, e) == InfosAt(c.infos.rows, s, e) {
      SameSet(InfosAt(d.infos.rows, s, e), InfosAt(c.infos.rows, s, e));
    }
    forall i, p ensures ValuesAt(d.values.rows, i, p) == ValuesAt(c.values.rows, i, p) {
      SameSet(ValuesAt(d.values.rows, i, p), ValuesAt(c.values.rows, i, p));
    }
  }

  // ---------- Steps ----------

  lemma PatchedRowSnoc(c: Catalog, shop: Id, init: seq<Good>, g: Good, row: Info)
    requires g.price != Null && g.quantity != Null
    ensures var was, now := PatchedRow(c, shop, init, row), PatchedRow(c, shop, init + [g], row);
      now == if row.shop == shop && g.id == Given(row.ext) then
               was.(product := ProductId(c, g.name), price := g.price.GetOr(0).value, quantity := g.quantity.GetOr(0).value)
             else was
  {
    assert (init + [g])[..|init|] == init;
  }

  /** Writing one good's row advances the row-by-row effect by that good without parameters. */
  lemma PatchRowStep(c: Catalog, shop: Id, init: seq<Good>, g: Good)
    requires Core(c) && UniqueProducts(c) && WarmGood(c, shop, g)
    ensures var d, e := Patched(c, shop, init), Patched(c, shop, init + [Clip(g, 0)]);
      var r := RestockOffer(d, shop, ProductId(c, g.name), g.id.Get(), g.price.GetOr(0), g.quantity.GetOr(0));
      r.Ok? && r.catalog == e && InfosAt(c.infos.rows, shop, g.id.value) == {r.id}
  {
    var d := Patched(c, shop, init);
    var gs := init + [Clip(g, 0)];
    PatchedShape(c, shop, init);
    OneOffer(c, shop, g.id.value);
    OneProduct(c, g.name.value);
    assert ProductId(c, g.name) in ProductsNamed(c.products.rows, g.name.value);
    var i := Lookup(InfosAt(c.infos.rows, shop, g.id.value)).id;
    assert i in InfosAt(c.infos.rows, shop, g.id.value);
    assert forall j :: j in c.infos.rows && c.infos.rows[j].shop == shop && c.infos.rows[j].ext == g.id.value ==> j == i;
    var r := RestockOffer(d, shop, ProductId(c, g.name), g.id.Get(), g.price.GetOr(0), g.quantity.GetOr(0));
    forall j | j in c.infos.rows
      ensures r.catalog.infos.rows[j] == PatchedRow(c, shop, gs, c.infos.rows[j])
    {
      PatchedRowSnoc(c, shop, init, Clip(g, 0), c.infos.rows[j]);
    }
    assert r.catalog.infos == Patched(c, shop, gs).infos;
    BareKeepsValues(c, shop, init, g);
  }

  /** A good without parameters writes no value. */
  lemma BareKeepsValues(c: Catalog, shop: Id, init: seq<Good>, g: Good)
    ensures Patched(c, shop, init + [Clip(g, 0)]).values == Patched(c, shop, init).values
  {
    var d, e := Patched(c, shop, init), Patched(c, shop, init + [Clip(g, 0)]);
    assert (init + [Clip(g, 0)])[..|init|] == init;
    forall v | v in c.values.rows ensures e.values.rows[v] == d.values.rows[v] {
      assert LastParameter(OrEmpty(Clip(g, 0).parameters), "") == None;
    }
    assert e.values.rows == d.values.rows;
  }

  /** Writing one more parameter value advances it by that parameter. */
  lemma PatchTextStep(c: Catalog, shop: Id, init: seq<Good>, g: Good, j: nat, i: Id)
    requires Core(c) && WarmGood(c, shop, g) && j < |OrEmpty(g.parameters)| && i in InfosAt(c.infos.rows, shop, g.id.value)
    ensures var d, e := Patched(c, shop, init + [Clip(g, j)]), Patched(c, shop, init + [Clip(g, j + 1)]);
      var p := OrEmpty(g.parameters)[j]; var q := Lookup(ParametersNamed(c.parameters.rows, p.0));
      q.One? && SaveValue(d, i, q.id, p.1.Str()).Ok? && SaveValue(d, i, q.id, p.1.Str()).catalog == e
  {
    var gs, hs := init + [Clip(g, j)], init + [Clip(g, j + 1)];
    var ps := OrEmpty(g.parameters);
    var d, e, p := Patched(c, shop, gs), Patched(c, shop, hs), ps[j];
    PatchedShape(c, shop, gs);
    assert WarmParameter(c, i, p.0) by { assert p in ps; }
    var q := Lookup(ParametersNamed(c.parameters.rows, p.0)).id;
    assert q in ParametersNamed(c.parameters.rows, p.0);
    var v := Lookup(ValuesAt(c.values.rows, i, q)).id;
    assert v in ValuesAt(c.values.rows, i, q);
    forall w | w in c.values.rows
      ensures PatchedValue(c, shop, hs, c.values.rows[w]) ==
        if w == v then PatchedValue(c, shop, gs, c.values.rows[w]).(text := p.1.Str()) else PatchedValue(c, shop, gs, c.values.rows[w])
    {
      PatchedOther(c, shop, init, g, j, w, i, q);
    }
    ClipKeepsRows(c, shop, init, g, j);
    assert SaveValue(d, i, q, p.1.Str()).catalog.values.rows == e.values.rows;
  }

  /** How many parameters a good carries makes no difference to the rows. */
  lemma ClipKeepsRows(c: Catalog, shop: Id, init: seq<Good>, g: Good, j: nat)
    requires g.price != Null && g.quantity != Null && j < |OrEmpty(g.parameters)|
    ensures Patched(c, shop, init + [Clip(g, j)]).infos == Patched(c, shop, init + [Clip(g, j + 1)]).infos
  {
    var d, e := Patched(c, shop, init + [Clip(g, j)]), Patched(c, shop, init + [Clip(g, j + 1)]);
    forall k | k in c.infos.rows ensures e.infos.rows[k] == d.infos.rows[k] {
      PatchedRowSnoc(c, shop, init, Clip(g, j), c.infos.rows[k]);
      PatchedRowSnoc(c, shop, init, Clip(g, j + 1), c.infos.rows[k]);
    }
    assert e.infos.rows == d.infos.rows;
  }

  lemma PatchedOther(c: Catalog, shop: Id, init: seq<Good>, g: Good, j: nat, w: Id, i: Id, q: Id)
    requires Core(c) && g.id.Given? && j < |OrEmpty(g.parameters)| && w in c.values.rows
    requires i in InfosAt(c.infos.rows, shop, g.id.value) && q in ParametersNamed(c.parameters.rows, OrEmpty(g.parameters)[j].0)
    ensures var v, text := c.values.rows[w], OrEmpty(g.parameters)[j].1.Str();
      PatchedValue(c, shop, init + [Clip(g, j + 1)], v) ==
        if v.info == i && v.parameter == q then v.(text := text) else PatchedValue(c, shop, init + [Clip(g, j)], v)
  {
    var gs, hs := init + [Clip(g, j)], init + [Clip(g, j + 1)];
    var ps := OrEmpty(g.parameters);
    assert gs[..|gs|-1] == init && hs[..|hs|-1] == init;
    assert ps[..j+1][..j] == ps[..j];
  }

  // ---------- Runs ----------

  /** The catalogue after some of a good's parameters, everything else as it was. */
  ghost predicate Reached(s: Session, t: Session, d: Catalog) {
    t.error.None? && t.db == s.db.(catalog := d) && t.regs.shop == s.regs.shop
  }

  lemma FourSteps(s: Session, one: Stmt, two: Stmt, three: Stmt, four: Stmt)
    requires s.error.None? && Exec(s, one).error.None? && Exec(Exec(s, one), two).error.None?
    requires Exec(Exec(Exec(s, one), two), three).error.None?
    ensures Run(s, [one, two, three, four]) == Exec(Exec(Exec(Exec(s, one), two), three), four)
  {
    var s1 := Exec(s, one);
    var s2 := Exec(s1, two);
    assert [one, two, three, four] == [one] + ([two] + ([three] + ([four] + [])));
    RunStep(s, one, [two] + ([three] + ([four] + [])));
    RunStep(s1, two, [three] + ([four] + []));
    RunStep(s2, three, [four] + []);
    RunStep(Exec(s2, three), four, []);
  }

  lemma KnownLookups(s: Session, ext: int, name: string, q: Id, i: Id)
    requires s.error.None? && Lookup(ParametersNamed(s.db.catalog.parameters.rows, name)) == One(q)
    requires Lookup(InfosAt(s.db.catalog.infos.rows, s.regs.shop, ext)) == One(i)
    ensures Exec(s, OpenParameter(name)).error.None?
    ensures Exec(Exec(s, OpenParameter(name)), FindOffer(Some(ext))) == s.(regs := s.regs.(parameter := q, info := i))
  {
    assert Exec(s, OpenParameter(name)) == s.(regs := s.regs.(parameter := q));
  }

  /** One parameter, when its name, its product row and its value row are known. */
  lemma KnownParameterRuns(s: Session, ext: int, p: (string, Scalar), q: Id, i: Id, e: Catalog)
    requires s.error.None? && Lookup(ParametersNamed(s.db.catalog.parameters.rows, p.0)) == One(q)
    requires Lookup(InfosAt(s.db.catalog.infos.rows, s.regs.shop, ext)) == One(i)
    requires SaveValue(s.db.catalog, i, q, p.1.Str()).Ok? && SaveValue(s.db.catalog, i, q, p.1.Str()).catalog == e
    ensures var t := Run(s, ImportParameter(Some(ext), p));
      Reached(s, t, e) && t.regs.stats == s.regs.stats.(parameters := s.regs.stats.parameters + 1)
  {
    KnownLookups(s, ext, p.0, q, i);
    var s2 := s.(regs := s.regs.(parameter := q, info := i));
    assert Exec(s2, PutValue(p.1.Str())) == s2.(db := s.db.(catalog := e));
    FourSteps(s, OpenParameter(p.0), FindOffer(Some(ext)), PutValue(p.1.Str()), Tally(Parameters));
  }

  lemma ParameterStepRuns(c: Catalog, s: Session, init: seq<Good>, g: Good, j: nat)
    requires Core(c) && WarmGood(c, s.regs.shop, g) && j < |OrEmpty(g.parameters)|
    requires s.error.None? && s.db.catalog == Patched(c, s.regs.shop, init + [Clip(g, j)])
    ensures var t := Run(s, ImportParameter(g.id.Get(), OrEmpty(g.parameters)[j]));
      && Reached(s, t, Patched(c, s.regs.shop, init + [Clip(g, j + 1)]))
      && t.regs.stats == s.regs.stats.(parameters := s.regs.stats.parameters + 1)
  {
    var shop, p := s.regs.shop, OrEmpty(g.parameters)[j];
    PatchedShape(c, shop, init + [Clip(g, j)]);
    OneOffer(c, shop, g.id.value);
    var i := Lookup(InfosAt(c.infos.rows, shop, g.id.value)).id;
    assert i in InfosAt(c.infos.rows, shop, g.id.value);
    PatchTextStep(c, shop, init, g, j, i);
    var q := Lookup(ParametersNamed(c.parameters.rows, p.0)).id;
    KnownParameterRuns(s, g.id.value, p, q, i, Patched(c, shop, init + [Clip(g, j + 1)]));
  }

  lemma {:induction false} WarmParametersRun(c: Catalog, s: Session, init: seq<Good>, g: Good, j: nat)
    requires Core(c) && WarmGood(c, s.regs.shop, g) && j <= |OrEmpty(g.parameters)|
    requires s.error.None? && s.db.catalog == Patched(c, s.regs.shop, init + [Clip(g, 0)])
    ensures var t := Run(s, ImportParameters(g.id.Get(), OrEmpty(g.parameters)[..j]));
      && Reached(s, t, Patched(c, s.regs.shop, init + [Clip(g, j)]))
      && t.regs.stats == s.regs.stats.(parameters := s.regs.stats.parameters + j)
    decreases j
  {
    if j > 0 {
      var ps := OrEmpty(g.parameters);
      WarmParametersRun(c, s, init, g, j - 1);
      assert ps[..j][..j-1] == ps[..j-1];
      ImportParametersSnoc(g.id.Get(), ps[..j]);
      RunAppend(s, ImportParameters(g.id.Get(), ps[..j-1]), ImportParameter(g.id.Get(), ps[j-1]));
      ParameterStepRuns(c, Run(s, ImportParameters(g.id.Get(), ps[..j-1])), init, g, j - 1);
    }
  }

  /** The statements before a good's parameters. */
  function ImportRow(g: Good): seq<Stmt> {
    [ FindCategory(g.category.Get()), OpenProduct(g.name.Get(), g.category.Get()),
      PatchOffer(g.id.Get(), g.price.GetOr(0), g.quantity.GetOr(0)), Tally(Products) ]
  }

  lemma WarmRowRuns(c: Catalog, s: Session, init: seq<Good>, g: Good)
    requires Core(c) && UniqueProducts(c) && WarmGood(c, s.regs.shop, g)
    requires s.error.None? && s.db.catalog == Patched(c, s.regs.shop, init)
    ensures var t := Run(s, ImportRow(g));
      && Reached(s, t, Patched(c, s.regs.shop, init + [Clip(g, 0)]))
      && t.regs.stats == s.regs.stats.(products := s.regs.stats.products + 1)
  {
    var shop := s.regs.shop;
    PatchRowStep(c, shop, init, g);
    OneProduct(c, g.name.value);
    assert ProductId(c, g.name) in ProductsNamed(c.products.rows, g.name.value);
    FourSteps(s, ImportRow(g)[0], ImportRow(g)[1], ImportRow(g)[2], Tally(Products));
    assert ImportRow(g) == [ImportRow(g)[0], ImportRow(g)[1], ImportRow(g)[2], Tally(Products)];
  }

  /** Clipping at the full length changes nothing that the row-by-row effect reads. */
  lemma UnclippedPatched(c: Catalog, shop: Id, init: seq<Good>, g: Good)
    requires g.price != Null && g.quantity != Null
    ensures Patched(c, shop, init + [Clip(g, |OrEmpty(g.parameters)|)]) == Patched(c, shop, init + [g])
  {
    var h := Clip(g, |OrEmpty(g.parameters)|);
    assert OrEmpty(g.parameters)[..|OrEmpty(g.parameters)|] == OrEmpty(g.parameters);
    assert (init + [g])[..|init|] == init && (init + [h])[..|init|] == init;
    forall r: Info ensures PatchedRow(c, shop, init + [h], r) == PatchedRow(c, shop, init + [g], r) {
      PatchedRowSnoc(c, shop, init, h, r);
      PatchedRowSnoc(c, shop, init, g, r);
    }
    forall v: ParamValue ensures PatchedValue(c, shop, init + [h], v) == PatchedValue(c, shop, init + [g], v) {}
  }

  function ParameterCount(gs: seq<Good>): nat {
    if gs == [] then 0 else |OrEmpty(gs[0].parameters)| + ParameterCount(gs[1..])
  }

  lemma {:induction false} ParameterCountSnoc(gs: seq<Good>)
    requires gs != []
    ensures ParameterCount(gs) == ParameterCount(gs[..|gs|-1]) + |OrEmpty(gs[|gs|-1].parameters)|
    decreases |gs|
  {
    if |gs| > 1 {
      assert gs[..|gs|-1][1..] == gs[1..][..|gs|-2];
      ParameterCountSnoc(gs[1..]);
    }
  }

  lemma WarmGoodRuns(c: Catalog, s: Session, init: seq<Good>, g: Good)
    requires Core(c) && UniqueProducts(c) && WarmGood(c, s.regs.shop, g)
    requires s.error.None? && s.db.catalog == Patched(c, s.regs.shop, init)
    ensures var t, n := Run(s, ImportGood(g)), s.regs.stats;
      && Reached(s, t, Patched(c, s.regs.shop, init + [g]))
      && t.regs.stats == n.(products := n.products + 1, parameters := n.parameters + |OrEmpty(g.parameters)|)
  {
    var ps := OrEmpty(g.parameters);
    assert ImportGood(g) == ImportRow(g) + ImportParameters(g.id.Get(), ps);
    RunAppend(s, ImportRow(g), ImportParameters(g.id.Get(), ps));
    WarmRowRuns(c, s, init, g);
    WarmParametersRun(c, Run(s, ImportRow(g)), init, g, |ps|);
    assert ps[..|ps|] == ps;
    UnclippedPatched(c, s.regs.shop, init, g);
  }

  lemma NothingPatched(c: Catalog, shop: Id)
    ensures Patched(c, shop, []) == c
  {
    var d := Patched(c, shop, []);
    assert forall i :: i in c.infos.rows ==> d.infos.rows[i] == PatchedRow(c, shop, [], c.infos.rows[i]);
    assert d.infos.rows == c.infos.rows;
    assert forall v :: v in c.values.rows ==> d.values.rows[v] == PatchedValue(c, shop, [], c.values.rows[v]);
    assert d.values.rows == c.values.rows;
  }

  /** Importing goods into a store that knows them all succeeds and patches it row by row. */
  lemma {:induction false} WarmGoodsRun(c: Catalog, s: Session, gs: seq<Good>)
    requires Core(c) && UniqueProducts(c) && Warm(c, s.regs.shop, gs) && s.error.None? && s.db.catalog == c
    ensures var t, n := Run(s, ImportGoods(gs)), s.regs.stats;
      && Reached(s, t, Patched(c, s.regs.shop, gs))
      && t.regs.stats == n.(products := n.products + |gs|, parameters := n.parameters + ParameterCount(gs))
    decreases |gs|
  {
    if gs == [] {
      NothingPatched(c, s.regs.shop);
    } else {
      var m := |gs| - 1;
      WarmGoodsRun(c, s, gs[..m]);
      ImportGoodsSnoc(gs);
      RunAppend(s, ImportGoods(gs[..m]), ImportGood(gs[m]));
      WarmGoodRuns(c, Run(s, ImportGoods(gs[..m])), gs[..m], gs[m]);
      assert gs[..m] + [gs[m]] == gs;
      ParameterCountSnoc(gs);
    }
  }
}
