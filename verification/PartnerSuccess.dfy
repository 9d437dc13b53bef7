/**
 When the reference `PartnerUpdate` succeeds, for any file and any well-formed store.  It creates where
 `load_data` updates, so a repeated id is an error only under the same name and category.
 */
module PartnerSuccess {
  import opened Prelude
  import opened Tables
  import opened Orm
  import opened Programs

  // ---------- The condition ----------

  /** The user's own shop bears the name, or the user owns no shop at all; a stranger's shop does not matter. */
  ghost predicate OwnShopOpens(c: Catalog, name: string, user: Id) {
    ShopsNamed(c.shops.rows, name) * ShopsOwnedBy(c.shops.rows, user) != {} || ShopsOwnedBy(c.shops.rows, user) == {}
  }

  /** The category table after these entries, or None if one of them raises: a known id needs its known name. */
  function CategoriesMatched(t: Table<Category>, es: seq<CategoryEntry>): Option<Table<Category>>
    decreases |es|
  {
    if es == [] then Some(t)
    else if es[0].id.Missing? || !es[0].name.Given? then None
    else
      var row := Category(es[0].name.value);
      if es[0].id.Given? && es[0].id.value in t.rows then
        if t.rows[es[0].id.value] == row then CategoriesMatched(t, es[1..]) else None
      else CategoriesMatched(if es[0].id.Given? then t.InsertAt(es[0].id.value, row) else t.Insert(row), es[1..])
  }

  /** A parsed mapping has no key twice. */
  predicate DistinctNames(ps: seq<(string, Scalar)>) {
    forall i, j :: 0 <= i < j < |ps| ==> ps[i].0 != ps[j].0
  }

  predicate NoNulls(ps: seq<(string, Scalar)>) {
    forall p :: p in ps ==> p.1.Scalar?
  }

  /** The row's own columns are all given and not negative. */
  predicate RowFits(g: Good) {
    && g.id.Given? && g.model.Given? && g.price.Given? && g.rrc.Given? && g.quantity.Given?
    && 0 <= g.id.value && 0 <= g.price.value && 0 <= g.rrc.value && 0 <= g.quantity.value
  }

  predicate Fits(categories: set<Id>, g: Good) {
    && g.name.Given? && g.category.Given? && g.category.value in categories && RowFits(g)
    && g.parameters.Given? && DistinctNames(g.parameters.value) && NoNulls(g.parameters.value)
  }

  predicate SameOffer(g: Good, h: Good) {
    g.id == h.id && g.name == h.name && g.category == h.category
  }

  predicate DistinctOffers(gs: seq<Good>) {
    forall i, j :: 0 <= i < j < |gs| ==> !SameOffer(gs[i], gs[j])
  }

  ghost predicate PartnerAccepts(c: Catalog, f: PriceFile, user: Id) {
    && f.shop.Given? && f.categories.Given? && f.goods.Given? && OwnShopOpens(c, f.shop.value, user)
    && var table := CategoriesMatched(c.categories, f.categories.value);
    && table.Some? && DistinctOffers(f.goods.value)
    && forall g :: g in f.goods.value ==> Fits(table.value.rows.Keys, g)
  }

  // ---------- The store while the reference importer runs ----------

  /** Products may share a name here, but not a name and a category. */
  ghost predicate ExactProducts(c: Catalog) {
    forall i, j |
      i in c.products.rows && j in c.products.rows && c.products.rows[i] == c.products.rows[j] ::
      i == j
  }

  ghost predicate Sane(c: Catalog) {
    FreshCatalog(c) && NoDangling(c) && UniqueParameters(c) && OneValuePerParameter(c) && ExactProducts(c)
  }

  ghost predicate Ready(s: Session) {
    s.error.None? && Sane(s.db.catalog) && s.regs.shop in s.db.catalog.shops.rows
  }

  /** The shop has a row for this id under the product of this name and category. */
  ghost predicate HasRow(c: Catalog, shop: Id, ext: int, product: Product) {
    exists i :: IsRow(c, i, shop, ext, product)
  }

  ghost predicate IsRow(c: Catalog, i: Id, shop: Id, ext: int, product: Product) {
    && i in InfosAt(c.infos.rows, shop, ext)
    && c.infos.rows[i].product in c.products.rows && c.products.rows[c.infos.rows[i].product] == product
  }

  // ---------- Single statements ----------

  lemma ExactProductSucceeds(s: Session, name: Option<string>, category: Option<int>)
    requires Ready(s)
    ensures var c, t := s.db.catalog, Exec(s, OpenExactProduct(name, category)); var d := t.db.catalog;
      && (t.error.None? <==> name.Some? && category.Some? && category.value in c.categories.rows)
      && (t.error.None? ==>
            && Ready(t) && d == c.(products := d.products) && t.regs == s.regs.(product := t.regs.product)
            && t.regs.product in d.products.rows && d.products.rows[t.regs.product] == Product(name.value, category.value)
            && forall p :: p in c.products.rows ==> p in d.products.rows && d.products.rows[p] == c.products.rows[p])
  {
    var c := s.db.catalog;
    if name.Some? && category.Some? {
      var found := set i | i in ProductsNamed(c.products.rows, name.value) && c.products.rows[i].category == category.value;
      if Lookup(found).Multiple? { var i, j := Ambiguous(found); }
      if Lookup(found).One? { assert Lookup(found).id in found; }
      if Lookup(found).NotFound? { assert forall i :: i in c.products.rows ==> i !in found; }
    }
  }

  /** Products that are only added leave the rows under their products. */
  lemma RowsKeepProducts(c: Catalog, d: Catalog, shop: Id)
    requires NoDangling(c) && d == c.(products := d.products)
    requires forall p :: p in c.products.rows ==> p in d.products.rows && d.products.rows[p] == c.products.rows[p]
    ensures forall ext, product :: HasRow(d, shop, ext, product) <==> HasRow(c, shop, ext, product)
  {
    forall ext, product ensures HasRow(d, shop, ext, product) <==> HasRow(c, shop, ext, product) {
      forall i ensures IsRow(d, i, shop, ext, product) <==> IsRow(c, i, shop, ext, product) {}
    }
  }

  lemma AddOfferSucceeds(s: Session, g: Good)
    requires Ready(s) && s.regs.product in s.db.catalog.products.rows
    ensures var c, t := s.db.catalog, Exec(s, AddOffer(NewOffer(g))); var d, p := t.db.catalog, c.products.rows[s.regs.product];
      && (t.error.None? <==> RowFits(g) && !HasRow(c, s.regs.shop, g.id.value, p))
      && (t.error.None? ==>
            && Ready(t) && d == c.(infos := d.infos) && t.regs == s.regs.(info := c.infos.next)
            && d.infos == c.infos.Insert(NewOffer(g).value.(shop := s.regs.shop, product := s.regs.product)))
  {
    var c := s.db.catalog;
    if RowFits(g) {
      var row, p := NewOffer(g).value.(shop := s.regs.shop, product := s.regs.product), c.products.rows[s.regs.product];
      if HasRow(c, s.regs.shop, g.id.value, p) {
        var i :| IsRow(c, i, s.regs.shop, g.id.value, p);
        assert c.infos.rows[i].product == s.regs.product;
      } else {
        forall i | i in InfosAt(c.infos.rows, row.shop, row.ext) ensures c.infos.rows[i].product != row.product {
          assert !IsRow(c, i, s.regs.shop, g.id.value, p);
        }
      }
    }
  }

  /** The new row is the only change to which rows there are. */
  lemma OneRowMore(c: Catalog, d: Catalog, row: Info, ext: int, product: Product)
    requires FreshCatalog(c) && d == c.(infos := c.infos.Insert(row)) && row.product in c.products.rows
    ensures HasRow(d, row.shop, ext, product) <==>
      HasRow(c, row.shop, ext, product) || (ext == row.ext && product == c.products.rows[row.product])
  {
    if HasRow(c, row.shop, ext, product) {
      var i :| IsRow(c, i, row.shop, ext, product);
      assert IsRow(d, i, row.shop, ext, product);
    }
    if ext == row.ext && product == c.products.rows[row.product] { assert IsRow(d, c.infos.next, row.shop, ext, product); }
    if HasRow(d, row.shop, ext, product) {
      var i :| IsRow(d, i, row.shop, ext, product);
      assert i != c.infos.next ==> IsRow(c, i, row.shop, ext, product);
    }
  }

  lemma AddValueSucceeds(s: Session, text: Option<string>)
    requires Ready(s) && s.regs.info in s.db.catalog.infos.rows && s.regs.parameter in s.db.catalog.parameters.rows
    ensures var c, t := s.db.catalog, Exec(s, AddValue(text)); var d := t.db.catalog;
      && (t.error.None? <==> text.Some? && ValuesAt(c.values.rows, s.regs.info, s.regs.parameter) == {})
      && (t.error.None? ==> Ready(t) && t.regs == s.regs && d == c.(values := c.values.Insert(ParamValue(s.regs.info, s.regs.parameter, text.value))))
  {
    var c := s.db.catalog;
    if ValuesAt(c.values.rows, s.regs.info, s.regs.parameter) == {} {
      assert forall v :: v in c.values.rows ==> v !in ValuesAt(c.values.rows, s.regs.info, s.regs.parameter);
    }
  }

  lemma OpenParameterSucceeds(s: Session, name: string)
    requires Ready(s)
    ensures var c, t := s.db.catalog, Exec(s, OpenParameter(name)); var d := t.db.catalog;
      && Ready(t) && t.regs == s.regs.(parameter := t.regs.parameter) && d == c.(parameters := d.parameters)
      && t.regs.parameter in d.parameters.rows && d.parameters.rows[t.regs.parameter].name == name
      && (forall p :: p in c.parameters.rows ==> p in d.parameters.rows && d.parameters.rows[p] == c.parameters.rows[p])
  {
    var c := s.db.catalog;
    OneParameter(c, name);
    var named := ParametersNamed(c.parameters.rows, name);
    if Lookup(named).One? { assert Lookup(named).id in named; }
    if Lookup(named).NotFound? { assert forall p :: p in c.parameters.rows ==> p !in named; }
  }

  // ---------- One good's parameters ----------

  /** The row shows a parameter of this name. */
  ghost predicate Shown(s: Session, name: string) {
    var c := s.db.catalog;
    exists v :: v in c.values.rows && c.values.rows[v].info == s.regs.info &&
                c.values.rows[v].parameter in c.parameters.rows && c.parameters.rows[c.values.rows[v].parameter].name == name
  }

  /** One parameter: its value must not be null, and its name not shown yet. */
  lemma ParameterSucceeds(s: Session, p: (string, Scalar))
    requires Ready(s) && s.regs.info in s.db.catalog.infos.rows
    ensures var s1 := Exec(s, OpenParameter(p.0)); var t := Exec(s1, AddValue(p.1.Nullable()));
      && s1.error.None? && (t.error.None? <==> p.1.Scalar? && !Shown(s, p.0))
      && (t.error.None? ==>
            && Ready(t) && t.regs == s.regs.(parameter := t.regs.parameter)
            && t.db.catalog == s.db.catalog.(parameters := t.db.catalog.parameters, values := t.db.catalog.values)
            && forall name :: Shown(t, name) <==> Shown(s, name) || name == p.0)
  {
    OpenParameterSucceeds(s, p.0);
    var s1 := Exec(s, OpenParameter(p.0));
    AddValueSucceeds(s1, p.1.Nullable());
    ShownAtOpen(s, s1, p.0);
    var t := Exec(s1, AddValue(p.1.Nullable()));
    if t.error.None? {
      forall name ensures Shown(t, name) <==> Shown(s, name) || name == p.0 { ShownMore(s, s1, t, p.0, name); }
    }
  }

  lemma ShownAtOpen(s: Session, s1: Session, name: string)
    requires Ready(s) && Ready(s1) && s1.regs == s.regs.(parameter := s1.regs.parameter)
    requires var c, d := s.db.catalog, s1.db.catalog;
      && d == c.(parameters := d.parameters) && s1.regs.parameter in d.parameters.rows && d.parameters.rows[s1.regs.parameter].name == name
      && forall p :: p in c.parameters.rows ==> p in d.parameters.rows && d.parameters.rows[p] == c.parameters.rows[p]
    ensures ValuesAt(s1.db.catalog.values.rows, s1.regs.info, s1.regs.parameter) == {} <==> !Shown(s, name)
  {
    var c, d, at := s.db.catalog, s1.db.catalog, ValuesAt(s1.db.catalog.values.rows, s1.regs.info, s1.regs.parameter);
    if at != {} {
      var v := Any(at);
      assert v in c.values.rows;
    }
    if Shown(s, name) {
      var v :| v in c.values.rows && c.values.rows[v].info == s.regs.info &&
               c.values.rows[v].parameter in c.parameters.rows && c.parameters.rows[c.values.rows[v].parameter].name == name;
      assert v in at;
    }
  }

  lemma ShownMore(s: Session, s1: Session, t: Session, first: string, name: string)
    requires Ready(s) && Ready(s1) && s1.regs == s.regs.(parameter := s1.regs.parameter) && t.regs == s1.regs
    requires var c, d := s.db.catalog, s1.db.catalog;
      && d == c.(parameters := d.parameters) && s1.regs.parameter in d.parameters.rows && d.parameters.rows[s1.regs.parameter].name == first
      && forall p :: p in c.parameters.rows ==> p in d.parameters.rows && d.parameters.rows[p] == c.parameters.rows[p]
    requires exists text :: t.db.catalog == s1.db.catalog.(values := s1.db.catalog.values.Insert(ParamValue(s1.regs.info, s1.regs.parameter, text)))
    ensures Shown(t, name) <==> Shown(s, name) || name == first
  {
    var c, d := s.db.catalog, t.db.catalog;
    if Shown(s, name) {
      var v :| v in c.values.rows && c.values.rows[v].info == s.regs.info &&
               c.values.rows[v].parameter in c.parameters.rows && c.parameters.rows[c.values.rows[v].parameter].name == name;
      assert v in d.values.rows && d.values.rows[v] == c.values.rows[v];
    }
    if name == first { assert c.values.next in d.values.rows; }
  }

  lemma DistinctTail(ps: seq<(string, Scalar)>)
    requires ps != []
    ensures DistinctNames(ps) <==> DistinctNames(ps[1..]) && forall p :: p in ps[1..] ==> p.0 != ps[0].0
    ensures NoNulls(ps) <==> ps[0].1.Scalar? && NoNulls(ps[1..])
  {
    assert ps == [ps[0]] + ps[1..];
    if DistinctNames(ps[1..]) && forall p :: p in ps[1..] ==> p.0 != ps[0].0 {
      forall i, j | 0 <= i < j < |ps| ensures ps[i].0 != ps[j].0 {
        assert ps[j] == ps[1..][j-1] && ps[j] in ps[1..];
        if i > 0 { assert ps[i] == ps[1..][i-1]; }
      }
    }
    if DistinctNames(ps) {
      forall i, j | 0 <= i < j < |ps[1..]| ensures ps[1..][i].0 != ps[1..][j].0 {
        assert ps[1..][i] == ps[i+1] && ps[1..][j] == ps[j+1];
      }
    }
  }

  /** The condition on a row's parameters that are still to come. */
  ghost predicate Addable(s: Session, ps: seq<(string, Scalar)>) {
    DistinctNames(ps) && NoNulls(ps) && forall p :: p in ps ==> !Shown(s, p.0)
  }

  lemma AddableFirst(s: Session, t: Session, ps: seq<(string, Scalar)>)
    requires ps != [] && forall name :: Shown(t, name) <==> Shown(s, name) || name == ps[0].0
    requires ps[0].1.Scalar? && !Shown(s, ps[0].0)
    ensures Addable(s, ps) <==> Addable(t, ps[1..])
  {
    DistinctTail(ps);
    assert ps == [ps[0]] + ps[1..];
    forall p | p in ps[1..] ensures !Shown(t, p.0) <==> !Shown(s, p.0) && p.0 != ps[0].0 {}
  }

  lemma NotAddable(s: Session, ps: seq<(string, Scalar)>)
    requires ps != [] && !(ps[0].1.Scalar? && !Shown(s, ps[0].0))
    ensures !Addable(s, ps)
  {
    assert ps[0] in ps;
  }

  lemma {:induction false} ParametersSucceed(s: Session, ps: seq<(string, Scalar)>)
    requires Ready(s) && s.regs.info in s.db.catalog.infos.rows
    ensures var t := Run(s, PartnerParameters(ps));
      && (t.error.None? <==> Addable(s, ps))
      && (t.error.None? ==>
            && Ready(t) && t.regs == s.regs.(parameter := t.regs.parameter)
            && t.db.catalog == s.db.catalog.(parameters := t.db.catalog.parameters, values := t.db.catalog.values))
    decreases |ps|
  {
    if ps != [] {
      var one, two, rest := OpenParameter(ps[0].0), AddValue(ps[0].1.Nullable()), PartnerParameters(ps[1..]);
      assert PartnerParameters(ps) == [one] + ([two] + rest);
      ParameterSucceeds(s, ps[0]);
      RunStep(s, one, [two] + rest);
      RunStep(Exec(s, one), two, rest);
      var t := Exec(Exec(s, one), two);
      if t.error.None? {
        ParametersSucceed(t, ps[1..]);
        AddableFirst(s, t, ps);
      } else {
        NotAddable(s, ps);
      }
    }
  }

  lemma FieldSucceeds(s: Session, f: Field<seq<(string, Scalar)>>)
    requires Ready(s) && s.regs.info in s.db.catalog.infos.rows
    requires forall v :: v in s.db.catalog.values.rows ==> s.db.catalog.values.rows[v].info != s.regs.info
    ensures var t := Run(s, PartnerParameterField(f));
      && (t.error.None? <==> f.Given? && DistinctNames(f.value) && NoNulls(f.value))
      && (t.error.None? ==>
            && Ready(t) && t.regs.shop == s.regs.shop
            && t.db.catalog == s.db.catalog.(parameters := t.db.catalog.parameters, values := t.db.catalog.values))
  {
    match f
    case Missing => RunStep(s, Raise(KeyError), []); assert [Raise(KeyError)] + [] == [Raise(KeyError)];
    case Null => RunStep(s, Raise(AttributeError), []); assert [Raise(AttributeError)] + [] == [Raise(AttributeError)];
    case Given(ps) => ParametersSucceed(s, ps);
  }

  // ---------- One good ----------

  ghost predicate OfferFree(s: Session, g: Good) {
    g.id.Given? && g.name.Given? && g.category.Given? ==>
      !HasRow(s.db.catalog, s.regs.shop, g.id.value, Product(g.name.value, g.category.value))
  }

  /** The rows after a good that got through. */
  ghost predicate RowAdded(s: Session, t: Session, g: Good)
    requires g.id.Given? && g.name.Given? && g.category.Given?
  {
    forall ext, product ::
      HasRow(t.db.catalog, t.regs.shop, ext, product) <==>
      HasRow(s.db.catalog, s.regs.shop, ext, product) || (ext == g.id.value && product == Product(g.name.value, g.category.value))
  }

  /** `good['name']` to `good['quantity']`: an absent key raises sooner or later. */
  lemma KeysMissing(s: Session, g: Good)
    requires s.error.None?
    requires g.name.Missing? || g.category.Missing? || g.id.Missing? || g.model.Missing? || g.price.Missing? || g.rrc.Missing? || g.quantity.Missing?
    ensures Run(s, PartnerGood(g)).error.Some?
  {
    var raise := Raise(KeyError);
    if g.name.Missing? || g.category.Missing? {
      RunStep(s, raise, []);
      assert PartnerGood(g) == [raise] + [];
    } else {
      var one := OpenExactProduct(g.name.Get(), g.category.Get());
      assert PartnerGood(g) == [one] + [raise] && [raise] == [raise] + [];
      RunStep(s, one, [raise]);
      if Exec(s, one).error.None? { RunStep(Exec(s, one), raise, []); }
    }
  }

  lemma RowSucceeds(s: Session, g: Good, rest: seq<Stmt>)
    requires Ready(s)
    ensures var one, two := OpenExactProduct(g.name.Get(), g.category.Get()), AddOffer(NewOffer(g));
      var t := Run(s, [one] + ([two] + [])); var c, d := s.db.catalog, t.db.catalog;
      && Run(s, [one] + ([two] + rest)) == Run(t, rest)
      && (t.error.None? <==> g.name.Given? && g.category.Given? && g.category.value in c.categories.rows && RowFits(g) && OfferFree(s, g))
      && (t.error.None? ==>
            && Ready(t) && t.regs.shop == s.regs.shop && t.regs.info == c.infos.next && t.regs.info in d.infos.rows
            && d == c.(products := d.products, infos := d.infos) && RowAdded(s, t, g))
  {
    var one, two, c := OpenExactProduct(g.name.Get(), g.category.Get()), AddOffer(NewOffer(g)), s.db.catalog;
    RunStep(s, one, [two] + rest);
    RunStep(s, one, [two] + []);
    ExactProductSucceeds(s, g.name.Get(), g.category.Get());
    var s1 := Exec(s, one);
    if s1.error.None? {
      RowsKeepProducts(c, s1.db.catalog, s.regs.shop);
      AddOfferSucceeds(s1, g);
      RunStep(s1, two, rest);
      RunStep(s1, two, []);
      var t := Exec(s1, two);
      if t.error.None? {
        var row := NewOffer(g).value.(shop := s.regs.shop, product := s1.regs.product);
        forall ext, product
          ensures HasRow(t.db.catalog, t.regs.shop, ext, product) <==>
            HasRow(c, s.regs.shop, ext, product) || (ext == g.id.value && product == Product(g.name.value, g.category.value))
        {
          OneRowMore(s1.db.catalog, t.db.catalog, row, ext, product);
        }
      }
    }
  }

  lemma GoodSucceeds(s: Session, g: Good)
    requires Ready(s)
    ensures var c, t := s.db.catalog, Run(s, PartnerGood(g)); var d := t.db.catalog;
      && (t.error.None? <==> Fits(c.categories.rows.Keys, g) && OfferFree(s, g))
      && (t.error.None? ==> Ready(t) && d.categories == c.categories && t.regs.shop == s.regs.shop && RowAdded(s, t, g))
  {
    if g.name.Missing? || g.category.Missing? || g.id.Missing? || g.model.Missing? || g.price.Missing? || g.rrc.Missing? || g.quantity.Missing? {
      KeysMissing(s, g);
    } else {
      var field := PartnerParameterField(g.parameters);
      var one, two := OpenExactProduct(g.name.Get(), g.category.Get()), AddOffer(NewOffer(g));
      assert PartnerGood(g) == [one] + ([two] + field);
      RowSucceeds(s, g, field);
      var t := Run(s, [one] + ([two] + []));
      if t.error.None? {
        FieldSucceeds(t, g.parameters);
        RowsStay(t, Run(t, field));
      }
    }
  }

  lemma RowsStay(s: Session, t: Session)
    ensures s.db.catalog.infos == t.db.catalog.infos && s.db.catalog.products == t.db.catalog.products && s.regs.shop == t.regs.shop ==>
      forall ext, product :: HasRow(s.db.catalog, s.regs.shop, ext, product) <==> HasRow(t.db.catalog, t.regs.shop, ext, product)
  {
    if s.db.catalog.infos == t.db.catalog.infos && s.db.catalog.products == t.db.catalog.products && s.regs.shop == t.regs.shop {
      forall ext, product ensures HasRow(s.db.catalog, s.regs.shop, ext, product) <==> HasRow(t.db.catalog, t.regs.shop, ext, product) {
        forall i ensures IsRow(s.db.catalog, i, s.regs.shop, ext, product) <==> IsRow(t.db.catalog, i, t.regs.shop, ext, product) {}
      }
    }
  }

  // ---------- All goods ----------

  ghost predicate AllFree(s: Session, gs: seq<Good>) {
    forall g :: g in gs ==> OfferFree(s, g)
  }

  lemma OffersTail(gs: seq<Good>)
    requires gs != []
    ensures DistinctOffers(gs) <==> DistinctOffers(gs[1..]) && forall h :: h in gs[1..] ==> !SameOffer(gs[0], h)
  {
    assert gs == [gs[0]] + gs[1..];
    if DistinctOffers(gs[1..]) && forall h :: h in gs[1..] ==> !SameOffer(gs[0], h) {
      forall i, j | 0 <= i < j < |gs| ensures !SameOffer(gs[i], gs[j]) {
        assert gs[j] == gs[1..][j-1] && gs[j] in gs[1..];
        if i > 0 { assert gs[i] == gs[1..][i-1]; }
      }
    }
    if DistinctOffers(gs) {
      forall i, j | 0 <= i < j < |gs[1..]| ensures !SameOffer(gs[1..][i], gs[1..][j]) {
        assert gs[1..][i] == gs[i+1] && gs[1..][j] == gs[j+1];
      }
    }
  }

  /** After one good the others must be free and not be the same offer. */
  lemma FreeAfter(s: Session, t: Session, g: Good, hs: seq<Good>)
    requires g.id.Given? && g.name.Given? && g.category.Given? && RowAdded(s, t, g)
    requires forall h :: h in hs ==> h.id.Given? && h.name.Given? && h.category.Given?
    ensures AllFree(t, hs) <==> AllFree(s, hs) && forall h :: h in hs ==> !SameOffer(g, h)
  {
    forall h | h in hs ensures OfferFree(t, h) <==> OfferFree(s, h) && !SameOffer(g, h) {
      var product := Product(h.name.value, h.category.value);
      assert HasRow(t.db.catalog, t.regs.shop, h.id.value, product) <==>
        HasRow(s.db.catalog, s.regs.shop, h.id.value, product) || (h.id.value == g.id.value && product == Product(g.name.value, g.category.value));
    }
  }

  ghost predicate AllFit(c: Catalog, gs: seq<Good>) {
    forall g :: g in gs ==> Fits(c.categories.rows.Keys, g)
  }

  lemma {:induction false} GoodsSucceed(s: Session, gs: seq<Good>)
    requires Ready(s)
    ensures Run(s, PartnerGoods(gs)).error.None? <==> AllFit(s.db.catalog, gs) && DistinctOffers(gs) && AllFree(s, gs)
    decreases |gs|
  {
    if gs != [] {
      var g := gs[0];
      assert gs == [g] + gs[1..];
      RunAppend(s, PartnerGood(g), PartnerGoods(gs[1..]));
      GoodSucceeds(s, g);
      OffersTail(gs);
      var t := Run(s, PartnerGood(g));
      if t.error.None? {
        GoodsSucceed(t, gs[1..]);
        assert AllFit(t.db.catalog, gs[1..]) <==> AllFit(s.db.catalog, gs[1..]);
        if AllFit(s.db.catalog, gs[1..]) { FreeAfter(s, t, g, gs[1..]); }
      }
    }
  }

  // ---------- The head ----------

  lemma OwnShopSucceeds(db: Db, name: Option<string>, user: Id)
    requires ValidCatalog(db.catalog)
    ensures var c, t := db.catalog, Exec(Begin(db), OpenOwnShop(name, user)); var d := t.db.catalog;
      && (t.error.None? <==> name.Some? && OwnShopOpens(c, name.value, user))
      && (t.error.None? ==> Ready(t) && d == c.(shops := d.shops))
  {
    var c := db.catalog;
    if name.Some? {
      var both := ShopsNamed(c.shops.rows, name.value) * ShopsOwnedBy(c.shops.rows, user);
      if Lookup(both).Multiple? { var i, j := Ambiguous(both); }
      if Lookup(both).One? { assert Lookup(both).id in both; }
    }
  }

  lemma ExactCategorySucceeds(s: Session, e: CategoryEntry)
    requires Ready(s) && e.id != Missing && e.name != Missing
    ensures var c, t := s.db.catalog, Exec(s, OpenExactCategory(e.id.Get(), e.name.Get())); var table := CategoriesMatched(c.categories, [e]);
      && (t.error.None? <==> table.Some?)
      && (t.error.None? ==>
            && Ready(t) && t.regs == s.regs.(category := t.regs.category) && t.regs.category in t.db.catalog.categories.rows
            && t.db.catalog == c.(categories := table.value))
  {
    assert [e][1..] == [];
  }

  lemma LinkSucceeds(s: Session)
    requires Ready(s) && s.regs.category in s.db.catalog.categories.rows
    ensures var t := Exec(s, LinkCategory);
      Ready(t) && t.regs == s.regs && t.db.catalog == s.db.catalog.(links := t.db.catalog.links)
  {}

  lemma CategorySucceeds(s: Session, e: CategoryEntry, rest: seq<Stmt>)
    requires Ready(s)
    ensures var c, t := s.db.catalog, Run(s, PartnerCategory(e)); var table := CategoriesMatched(c.categories, [e]);
      && Run(s, PartnerCategory(e) + rest) == Run(t, rest)
      && (t.error.None? <==> table.Some?)
      && (t.error.None? ==>
            && Ready(t) && t.regs.shop == s.regs.shop
            && t.db.catalog == c.(categories := table.value, links := t.db.catalog.links))
  {
    RunAppend(s, PartnerCategory(e), rest);
    if e.id.Missing? || e.name.Missing? {
      RunStep(s, Raise(KeyError), []);
      assert PartnerCategory(e) == [Raise(KeyError)] + [];
    } else {
      var one := OpenExactCategory(e.id.Get(), e.name.Get());
      assert PartnerCategory(e) == [one] + [LinkCategory] && [LinkCategory] == [LinkCategory] + [];
      RunStep(s, one, [LinkCategory]);
      ExactCategorySucceeds(s, e);
      var s1 := Exec(s, one);
      if s1.error.None? {
        LinkSucceeds(s1);
        RunStep(s1, LinkCategory, []);
      }
    }
  }

  lemma MatchedCons(t: Table<Category>, es: seq<CategoryEntry>)
    requires es != []
    ensures CategoriesMatched(t, es) ==
      match CategoriesMatched(t, [es[0]])
      case None => None
      case Some(u) => CategoriesMatched(u, es[1..])
  {
    assert [es[0]][1..] == [];
  }

  lemma {:induction false} CategoriesSucceed(s: Session, es: seq<CategoryEntry>)
    requires Ready(s)
    ensures var c, t := s.db.catalog, Run(s, PartnerCategories(es)); var table := CategoriesMatched(c.categories, es);
      && (t.error.None? <==> table.Some?)
      && (t.error.None? ==>
            && Ready(t) && t.regs.shop == s.regs.shop
            && t.db.catalog == c.(categories := table.value, links := t.db.catalog.links))
    decreases |es|
  {
    if es != [] {
      CategorySucceeds(s, es[0], PartnerCategories(es[1..]));
      MatchedCons(s.db.catalog.categories, es);
      var t := Run(s, PartnerCategory(es[0]));
      if t.error.None? { CategoriesSucceed(t, es[1..]); }
    }
  }

  lemma ClearSucceeds(s: Session)
    requires Ready(s)
    ensures var t := Run(s, [ClearOffers]);
      && Ready(t) && t.regs == s.regs && t.db.catalog.categories == s.db.catalog.categories
      && forall ext, product :: !HasRow(t.db.catalog, t.regs.shop, ext, product)
  {
    RunStep(s, ClearOffers, []);
    assert [ClearOffers] + [] == [ClearOffers];
    var t := Exec(s, ClearOffers);
    forall ext, product ensures !HasRow(t.db.catalog, t.regs.shop, ext, product) {
      forall i ensures !IsRow(t.db.catalog, i, t.regs.shop, ext, product) {}
    }
  }

  lemma HeadSucceeds(db: Db, f: PriceFile, user: Id)
    requires ValidCatalog(db.catalog)
    ensures var c, t := db.catalog, Run(Begin(db), PartnerHead(f, user));
      && (t.error.None? <==> f.shop.Given? && f.categories.Given? && OwnShopOpens(c, f.shop.value, user) &&
                             CategoriesMatched(c.categories, f.categories.value).Some?)
      && (t.error.None? ==>
            && Ready(t) && t.db.catalog.categories == CategoriesMatched(c.categories, f.categories.value).value
            && forall ext, product :: !HasRow(t.db.catalog, t.regs.shop, ext, product))
  {
    var s := Begin(db);
    if f.shop.Missing? {
      RunStep(s, Raise(KeyError), []);
      assert PartnerHead(f, user) == [Raise(KeyError)] + [];
    } else {
      var one, two := OpenOwnShop(f.shop.Get(), user), MissingOr(f.categories, PartnerCategories(OrEmpty(f.categories)));
      assert PartnerHead(f, user) == [one] + (two + [ClearOffers]);
      RunStep(s, one, two + [ClearOffers]);
      OwnShopSucceeds(db, f.shop.Get(), user);
      var s1 := Exec(s, one);
      if s1.error.None? {
        RunAppend(s1, two, [ClearOffers]);
        if f.categories.Given? {
          CategoriesSucceed(s1, f.categories.value);
          if Run(s1, two).error.None? { ClearSucceeds(Run(s1, two)); }
        } else {
          RunStep(s1, two[0], []);
          assert two == [two[0]] + [];
        }
      }
    }
  }

  // ---------- Main result ----------

  /** `PartnerUpdate` gets to its end exactly for the files it accepts, from any valid store. */
  lemma PartnerSucceedsExactly(db: Db, f: PriceFile, user: Id)
    requires ValidCatalog(db.catalog)
    ensures Run(Begin(db), PartnerProgram(f, user)).error.None? <==> PartnerAccepts(db.catalog, f, user)
  {
    var s, head, tail := Begin(db), PartnerHead(f, user), MissingOr(f.goods, PartnerGoods(OrEmpty(f.goods)));
    RunAppend(s, head, tail);
    HeadSucceeds(db, f, user);
    var t := Run(s, head);
    if t.error.None? {
      if f.goods.Given? {
        GoodsSucceed(t, f.goods.value);
      } else {
        RunStep(t, tail[0], []);
        assert tail == [tail[0]] + [];
      }
    }
  }
}
