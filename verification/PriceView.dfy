/**
 What a customer of a shop can read from the tables, and what every statement does to it.
 The view is a map from (shop, external id) to an offer; no row identifiers are visible in it.
 */
module PriceView {
  import opened Prelude
  import opened Tables
  import opened Orm
  import opened Programs

  datatype Offer = Offer(
    product: string,
    model: string,
    price: int,
    rrc: int,
    quantity: int,
    parameters: imap<string, string>)

  type View = imap<(Id, int), Offer>

  /** The text a product row shows under a parameter name. */
  ghost function TextAt(ps: map<Id, Parameter>, vs: map<Id, ParamValue>, info: Id, name: string): Option<string> {
    match Lookup(ParametersNamed(ps, name))
    case One(p) =>
      (match Lookup(ValuesAt(vs, info, p))
       case One(v) => Some(vs[v].text)
       case _ => None)
    case _ => None
  }

  ghost function Texts(ps: map<Id, Parameter>, vs: map<Id, ParamValue>, info: Id): imap<string, string> {
    imap n | TextAt(ps, vs, info, n).Some? :: TextAt(ps, vs, info, n).value
  }

  lemma SameTexts(ps: map<Id, Parameter>, vs: map<Id, ParamValue>, qs: map<Id, Parameter>, ws: map<Id, ParamValue>, info: Id)
    requires forall n :: TextAt(ps, vs, info, n) == TextAt(qs, ws, info, n)
    ensures Texts(ps, vs, info) == Texts(qs, ws, info)
  {}

  ghost function ProductName(c: Catalog, p: Id): string {
    if p in c.products.rows then c.products.rows[p].name else ""
  }

  ghost function OfferOf(c: Catalog, info: Id): Offer
    requires info in c.infos.rows
  {
    var r := c.infos.rows[info];
    Offer(ProductName(c, r.product), r.model, r.price, r.rrc, r.quantity, Texts(c.parameters.rows, c.values.rows, info))
  }

  ghost function OfferAt(c: Catalog, shop: Id, ext: int): Option<Offer> {
    match Lookup(InfosAt(c.infos.rows, shop, ext))
    case One(i) => Some(OfferOf(c, i))
    case _ => None
  }

  ghost function ViewOf(c: Catalog): View {
    imap k: (Id, int) | OfferAt(c, k.0, k.1).Some? :: OfferAt(c, k.0, k.1).value
  }

  ghost function PriceList(c: Catalog, shop: Id): imap<int, Offer> {
    imap e: int | OfferAt(c, shop, e).Some? :: OfferAt(c, shop, e).value
  }

  // ---------- Abstract statements ----------

  /** A view together with the values the importer's local variables stand for. */
  datatype Abs = Abs(view: View, shop: Id, product: string, key: (Id, int), parameter: string)

  const NO_PARAMETERS: imap<string, string> := imap[]

  ghost function ParametersAt(v: View, key: (Id, int)): imap<string, string> {
    if key in v then v[key].parameters else NO_PARAMETERS
  }

  ghost function AbsExec(a: Abs, st: Stmt): Abs {
    match st
    case OpenProduct(name, _) => if name.Some? then a.(product := name.value) else a
    case OpenExactProduct(name, _) => if name.Some? then a.(product := name.value) else a
    case PutOffer(ext, model, price, rrc, quantity) =>
      if model.None? || rrc.None? then a
      else
        var key := (a.shop, ext);
        var o := Offer(a.product, model.value, price, rrc.value, quantity, ParametersAt(a.view, key));
        a.(view := a.view[key := o], key := key)
    case AddOffer(offer) =>
      if offer.None? then a
      else
        var key := (a.shop, offer.value.ext);
        var o := Offer(a.product, offer.value.model, offer.value.price, offer.value.rrc, offer.value.quantity, NO_PARAMETERS);
        a.(view := a.view[key := o], key := key)
    case PatchOffer(ext, price, quantity) =>
      if ext.None? || price.None? || quantity.None? || (a.shop, ext.value) !in a.view then a
      else
        var key := (a.shop, ext.value);
        var o := a.view[key].(product := a.product, price := price.value, quantity := quantity.value);
        a.(view := a.view[key := o])
    case FindOffer(ext) => if ext.Some? then a.(key := (a.shop, ext.value)) else a
    case OpenParameter(name) => a.(parameter := name)
    case PutValue(text) => a.(view := WithText(a.view, a.key, a.parameter, text))
    case AddValue(text) => if text.None? then a else a.(view := WithText(a.view, a.key, a.parameter, text.value))
    case ClearOffers => a.(view := imap k | k in a.view && k.0 != a.shop :: a.view[k])
    case _ => a
  }

  ghost function WithText(v: View, key: (Id, int), name: string, text: string): View {
    if key in v then v[key := v[key].(parameters := v[key].parameters[name := text])] else v
  }

  /** Of two writes to one place the later one shows. */
  lemma Overwrite(v: View, key: (Id, int), o: Offer, p: Offer)
    ensures v[key := o][key := p] == v[key := p]
  {}

  ghost function AbsRun(a: Abs, p: seq<Stmt>): Abs
    decreases |p|
  {
    if p == [] then a else AbsRun(AbsExec(a, p[0]), p[1..])
  }

  lemma {:induction false} AbsRunAppend(a: Abs, p: seq<Stmt>, q: seq<Stmt>)
    ensures AbsRun(a, p + q) == AbsRun(AbsRun(a, p), q)
    decreases |p|
  {
    if p == [] {
      assert p + q == q;
    } else {
      assert (p + q)[1..] == p[1..] + q;
      AbsRunAppend(AbsExec(a, p[0]), p[1..], q);
    }
  }

  // ---------- Simulation ----------

  /** The local variables hold the rows that the abstract values name (where those rows still exist). */
  ghost predicate Match(c: Catalog, r: Regs, a: Abs) {
    && a.view == ViewOf(c)
    && a.shop == r.shop
    && (r.product in c.products.rows ==> c.products.rows[r.product].name == a.product)
    && (r.info in c.infos.rows ==> (c.infos.rows[r.info].shop, c.infos.rows[r.info].ext) == a.key)
    && (r.parameter in c.parameters.rows ==> c.parameters.rows[r.parameter].name == a.parameter)
  }

  /** Statements that may follow the opening of the shop. */
  predicate BodyStmt(st: Stmt) {
    !st.OpenShop? && !st.OpenOwnShop?
  }

  /** AddOffer inserts blindly; it is only tame where the shop does not list the external id yet. */
  ghost predicate Tame(c: Catalog, r: Regs, st: Stmt) {
    st.AddOffer? && st.offer.Some? ==> InfosAt(c.infos.rows, r.shop, st.offer.value.ext) == {}
  }

  lemma SameView(c: Catalog, d: Catalog)
    requires forall s, e :: OfferAt(c, s, e) == OfferAt(d, s, e)
    ensures ViewOf(c) == ViewOf(d)
  {}

  /** The row of (shop, ext), if any, is the unique one. */
  lemma RowAt(c: Catalog, i: Id)
    requires OneRowPerOffer(c) && i in c.infos.rows
    ensures Lookup(InfosAt(c.infos.rows, c.infos.rows[i].shop, c.infos.rows[i].ext)) == One(i)
  {
    Singleton(InfosAt(c.infos.rows, c.infos.rows[i].shop, c.infos.rows[i].ext), i);
  }

  lemma ParameterAt(c: Catalog, p: Id)
    requires UniqueParameters(c) && p in c.parameters.rows
    ensures Lookup(ParametersNamed(c.parameters.rows, c.parameters.rows[p].name)) == One(p)
  {
    Singleton(ParametersNamed(c.parameters.rows, c.parameters.rows[p].name), p);
  }

  lemma ValueAt(c: Catalog, v: Id)
    requires OneValuePerParameter(c) && v in c.values.rows
    ensures Lookup(ValuesAt(c.values.rows, c.values.rows[v].info, c.values.rows[v].parameter)) == One(v)
  {
    Singleton(ValuesAt(c.values.rows, c.values.rows[v].info, c.values.rows[v].parameter), v);
  }

  // ---------- Effect of each primitive on the view ----------

  /** More products, everything else that is visible left alone: nothing visible changes. */
  lemma ProductsGrow(c: Catalog, d: Catalog)
    requires NoDangling(c)
    requires d.infos == c.infos && d.parameters == c.parameters && d.values == c.values
    requires forall p :: p in c.products.rows ==> p in d.products.rows && d.products.rows[p].name == c.products.rows[p].name
    ensures ViewOf(d) == ViewOf(c)
  {
    SameView(c, d);
  }

  /** No parameter of a fresh name has a value anywhere, so a new parameter row shows nothing. */
  lemma ParameterEffect(c: Catalog, name: string)
    requires Core(c) && GetOrCreateParameter(c, name).Ok?
    ensures var r := GetOrCreateParameter(c, name);
      Core(r.catalog) && ViewOf(r.catalog) == ViewOf(c) &&
      r.id in r.catalog.parameters.rows && r.catalog.parameters.rows[r.id].name == name
  {
    var r := GetOrCreateParameter(c, name);
    var d := r.catalog;
    if d != c {
      assert forall p :: p in c.parameters.rows ==> p !in ParametersNamed(c.parameters.rows, name);
      var ps, qs, vs := c.parameters.rows, d.parameters.rows, c.values.rows;
      ParameterAt(d, r.id);
      forall i, n ensures TextAt(ps, vs, i, n) == TextAt(qs, vs, i, n) {
        if n == name {
          Nothing(ValuesAt(vs, i, r.id));
        } else {
          SameSet(ParametersNamed(ps, n), ParametersNamed(qs, n));
        }
      }
      forall i { SameTexts(ps, vs, qs, vs, i); }
      SameView(c, d);
    }
  }

  lemma TextAfterSave(c: Catalog, info: Id, parameter: Id, text: string)
    requires Core(c) && SaveValue(c, info, parameter, text).Ok?
    ensures parameter in c.parameters.rows
    ensures var ps, vs, ws := c.parameters.rows, c.values.rows, SaveValue(c, info, parameter, text).catalog.values.rows;
      forall i, n :: TextAt(ps, ws, i, n) == if i == info && n == ps[parameter].name then Some(text) else TextAt(ps, vs, i, n)
  {
    var r := SaveValue(c, info, parameter, text);
    var ps, vs, ws := c.parameters.rows, c.values.rows, r.catalog.values.rows;
    SaveValueKeeps(c, info, parameter, text);
    assert parameter in ps by {
      if parameter !in ps { Nothing(ValuesAt(vs, info, parameter)); }
    }
    ParameterAt(c, parameter);
    ValueAt(r.catalog, r.id);
    forall i, n
      ensures TextAt(ps, ws, i, n) == if i == info && n == ps[parameter].name then Some(text) else TextAt(ps, vs, i, n)
    {
      var found := Lookup(ParametersNamed(ps, n));
      if found.One? && (i, found.id) != (info, parameter) {
        SameSet(ValuesAt(vs, i, found.id), ValuesAt(ws, i, found.id));
      }
    }
  }

  lemma TextsAfterSave(c: Catalog, info: Id, parameter: Id, text: string)
    requires Core(c) && SaveValue(c, info, parameter, text).Ok?
    ensures parameter in c.parameters.rows
    ensures var ps, vs, ws := c.parameters.rows, c.values.rows, SaveValue(c, info, parameter, text).catalog.values.rows;
      forall i :: Texts(ps, ws, i) ==
        if i == info then Texts(ps, vs, i)[ps[parameter].name := text] else Texts(ps, vs, i)
  {
    var ps, vs, ws := c.parameters.rows, c.values.rows, SaveValue(c, info, parameter, text).catalog.values.rows;
    TextAfterSave(c, info, parameter, text);
    forall i | i != info { SameTexts(ps, vs, ps, ws, i); }
    assert Texts(ps, ws, info) == Texts(ps, vs, info)[ps[parameter].name := text];
  }

  lemma ValueEffect(c: Catalog, info: Id, parameter: Id, text: string)
    requires Core(c) && SaveValue(c, info, parameter, text).Ok?
    ensures var d := SaveValue(c, info, parameter, text).catalog;
      Core(d) && info in c.infos.rows && parameter in c.parameters.rows &&
      ViewOf(d) == WithText(ViewOf(c), (c.infos.rows[info].shop, c.infos.rows[info].ext), c.parameters.rows[parameter].name, text)
  {
    SaveValueKeeps(c, info, parameter, text);
    TextsAfterSave(c, info, parameter, text);
    assert info in c.infos.rows by {
      if info !in c.infos.rows { Nothing(ValuesAt(c.values.rows, info, parameter)); }
    }
    RowAt(c, info);
  }

  /** One product row written in place; every other row, and every parameter value, left alone. */
  lemma RowEffect(c: Catalog, i: Id, row: Info)
    requires Core(c) && i in c.infos.rows && Referable(c, row)
    requires row.shop == c.infos.rows[i].shop && row.ext == c.infos.rows[i].ext
    ensures var d := c.(infos := c.infos.Update(i, row));
      Core(d) && ViewOf(d) == ViewOf(c)[(row.shop, row.ext) := OfferOf(d, i)]
  {
    var d := c.(infos := c.infos.Update(i, row));
    assert Core(d);
    forall s, e ensures InfosAt(c.infos.rows, s, e) == InfosAt(d.infos.rows, s, e) {
      SameSet(InfosAt(c.infos.rows, s, e), InfosAt(d.infos.rows, s, e));
    }
    RowAt(c, i);
    forall s, e
      ensures OfferAt(d, s, e) == if (s, e) == (row.shop, row.ext) then Some(OfferOf(d, i)) else OfferAt(c, s, e)
    {}
  }

  /** One product row added where there was none. */
  lemma NewRowEffect(c: Catalog, row: Info)
    requires Core(c) && Referable(c, row) && InfosAt(c.infos.rows, row.shop, row.ext) == {}
    ensures var d := c.(infos := c.infos.Insert(row));
      Core(d) && d.infos.rows[c.infos.next] == row && Texts(c.parameters.rows, c.values.rows, c.infos.next) == NO_PARAMETERS &&
      ViewOf(d) == ViewOf(c)[(row.shop, row.ext) := OfferOf(d, c.infos.next)]
  {
    var d, i := c.(infos := c.infos.Insert(row)), c.infos.next;
    assert forall j :: j in c.infos.rows ==> j !in InfosAt(c.infos.rows, row.shop, row.ext);
    assert Core(d);
    RowAt(d, i);
    forall s, e
      ensures OfferAt(d, s, e) == if (s, e) == (row.shop, row.ext) then Some(OfferOf(d, i)) else OfferAt(c, s, e)
    {
      if (s, e) != (row.shop, row.ext) {
        SameSet(InfosAt(c.infos.rows, s, e), InfosAt(d.infos.rows, s, e));
      }
    }
    forall n ensures TextAt(c.parameters.rows, c.values.rows, i, n).None? {
      forall p { Nothing(ValuesAt(c.values.rows, i, p)); }
    }
  }

  lemma ClearEffect(c: Catalog, shop: Id)
    requires Core(c)
    ensures var d := ClearShop(c, shop);
      Core(d) && ViewOf(d) == imap k | k in ViewOf(c) && k.0 != shop :: ViewOf(c)[k]
  {
    var d := ClearShop(c, shop);
    ClearKeeps(c, shop);
    forall i | i in d.infos.rows
      ensures Texts(d.parameters.rows, d.values.rows, i) == Texts(c.parameters.rows, c.values.rows, i)
    {
      forall p { SameSet(ValuesAt(c.values.rows, i, p), ValuesAt(d.values.rows, i, p)); }
      SameTexts(d.parameters.rows, d.values.rows, c.parameters.rows, c.values.rows, i);
    }
    forall s, e ensures OfferAt(d, s, e) == if s == shop then None else OfferAt(c, s, e) {
      if s == shop {
        Nothing(InfosAt(d.infos.rows, s, e));
      } else {
        SameSet(InfosAt(c.infos.rows, s, e), InfosAt(d.infos.rows, s, e));
      }
    }
  }

  // ---------- Simulation, statement by statement ----------

  lemma PutOfferRefines(s: Session, a: Abs, st: Stmt)
    requires st.PutOffer? && Core(s.db.catalog) && Match(s.db.catalog, s.regs, a) && Exec(s, st).error.None?
    ensures Core(Exec(s, st).db.catalog) && Match(Exec(s, st).db.catalog, Exec(s, st).regs, AbsExec(a, st))
  {
    var c := s.db.catalog;
    var row := Info(st.ext, s.regs.shop, s.regs.product, st.model.value, st.price, st.rrc.value, st.quantity);
    match Lookup(InfosAt(c.infos.rows, row.shop, row.ext))
    case One(i) =>
      assert i in InfosAt(c.infos.rows, row.shop, row.ext);
      RowAt(c, i);
      RowEffect(c, i, row);
    case NotFound =>
      NewRowEffect(c, row);
    case _ =>
  }

  lemma AddOfferRefines(s: Session, a: Abs, st: Stmt)
    requires st.AddOffer? && Core(s.db.catalog) && Match(s.db.catalog, s.regs, a) && Exec(s, st).error.None?
    requires Tame(s.db.catalog, s.regs, st)
    ensures Core(Exec(s, st).db.catalog) && Match(Exec(s, st).db.catalog, Exec(s, st).regs, AbsExec(a, st))
  {
    NewRowEffect(s.db.catalog, st.offer.value.(shop := s.regs.shop, product := s.regs.product));
  }

  lemma PatchOfferRefines(s: Session, a: Abs, st: Stmt)
    requires st.PatchOffer? && Core(s.db.catalog) && Match(s.db.catalog, s.regs, a) && Exec(s, st).error.None?
    ensures Core(Exec(s, st).db.catalog) && Match(Exec(s, st).db.catalog, Exec(s, st).regs, AbsExec(a, st))
  {
    var c := s.db.catalog;
    var i := Ask(c, s.regs, st).id;
    assert i in InfosAt(c.infos.rows, s.regs.shop, st.extOrNull.value);
    RowAt(c, i);
    RowEffect(c, i, c.infos.rows[i].(product := s.regs.product, price := st.priceOrNull.value, quantity := st.quantityOrNull.value));
  }

  lemma ValueRefines(s: Session, a: Abs, st: Stmt)
    requires st.PutValue? || st.AddValue?
    requires Core(s.db.catalog) && Match(s.db.catalog, s.regs, a) && Exec(s, st).error.None?
    ensures Core(Exec(s, st).db.catalog) && Match(Exec(s, st).db.catalog, Exec(s, st).regs, AbsExec(a, st))
  {
    var text := if st.PutValue? then st.text else st.textOrNull.value;
    ValueEffect(s.db.catalog, s.regs.info, s.regs.parameter, text);
  }

  lemma ProductAdded(s: Session, st: Stmt)
    requires st.OpenProduct? || st.OpenExactProduct?
    requires Core(s.db.catalog) && Exec(s, st).error.None?
    ensures var c, d, i := s.db.catalog, Exec(s, st).db.catalog, Exec(s, st).regs.product;
      && Core(d) && st.productName.Some? && d == c.(products := d.products)
      && (forall p :: p in c.products.rows ==> p in d.products.rows && d.products.rows[p] == c.products.rows[p])
      && i in d.products.rows && d.products.rows[i].name == st.productName.value
      && Exec(s, st).regs == s.regs.(product := i)
  {
    var c, d, i := s.db.catalog, Exec(s, st).db.catalog, Exec(s, st).regs.product;
    assert d == c ==> i in ProductsNamed(c.products.rows, st.productName.value);
  }

  lemma ProductRefines(s: Session, a: Abs, st: Stmt)
    requires st.OpenProduct? || st.OpenExactProduct?
    requires Core(s.db.catalog) && Match(s.db.catalog, s.regs, a) && Exec(s, st).error.None?
    ensures Core(Exec(s, st).db.catalog) && Match(Exec(s, st).db.catalog, Exec(s, st).regs, AbsExec(a, st))
  {
    ProductAdded(s, st);
    ProductsGrow(s.db.catalog, Exec(s, st).db.catalog);
  }

  /** Categories, links, counters and the task row are not visible in a price list. */
  lemma QuietRefines(s: Session, a: Abs, st: Stmt)
    requires st.OpenCategory? || st.OpenExactCategory? || st.FindCategory? || st.LinkCategory? || st.Tally? || st.Finish?
    requires Core(s.db.catalog) && Match(s.db.catalog, s.regs, a) && Exec(s, st).error.None?
    ensures Core(Exec(s, st).db.catalog) && Match(Exec(s, st).db.catalog, Exec(s, st).regs, AbsExec(a, st))
  {
    var c, d := s.db.catalog, Exec(s, st).db.catalog;
    if c != d {
      if st.LinkCategory? {
        LinkKeeps(c, s.regs.category, s.regs.shop);
      } else {
        CategoryKeeps(c, st.categoryId, st.categoryName);
      }
    }
    ProductsGrow(c, d);
  }

  lemma FindRefines(s: Session, a: Abs, st: Stmt)
    requires st.FindOffer? && Core(s.db.catalog) && Match(s.db.catalog, s.regs, a) && Exec(s, st).error.None?
    ensures Core(Exec(s, st).db.catalog) && Match(Exec(s, st).db.catalog, Exec(s, st).regs, AbsExec(a, st))
  {
    assert Exec(s, st).regs.info in InfosAt(s.db.catalog.infos.rows, s.regs.shop, st.extOrNull.value);
  }

  lemma ParameterRefines(s: Session, a: Abs, st: Stmt)
    requires st.OpenParameter? && Core(s.db.catalog) && Match(s.db.catalog, s.regs, a) && Exec(s, st).error.None?
    ensures Core(Exec(s, st).db.catalog) && Match(Exec(s, st).db.catalog, Exec(s, st).regs, AbsExec(a, st))
  {
    ParameterEffect(s.db.catalog, st.parameterName);
  }

  lemma DeletionRefines(s: Session, a: Abs, st: Stmt)
    requires st.ClearOffers? && Core(s.db.catalog) && Match(s.db.catalog, s.regs, a)
    ensures Core(Exec(s, st).db.catalog) && Match(Exec(s, st).db.catalog, Exec(s, st).regs, AbsExec(a, st))
  {
    ClearEffect(s.db.catalog, s.regs.shop);
  }

  /** Every statement that runs without error does to the tables what its abstract counterpart does to the view. */
  lemma ExecRefines(s: Session, a: Abs, st: Stmt)
    requires BodyStmt(st) && Core(s.db.catalog) && Match(s.db.catalog, s.regs, a) && Exec(s, st).error.None?
    requires Tame(s.db.catalog, s.regs, st)
    ensures Core(Exec(s, st).db.catalog) && Match(Exec(s, st).db.catalog, Exec(s, st).regs, AbsExec(a, st))
  {
    if st.PutOffer? {
      PutOfferRefines(s, a, st);
    } else if st.AddOffer? {
      AddOfferRefines(s, a, st);
    } else if st.PatchOffer? {
      PatchOfferRefines(s, a, st);
    } else if st.PutValue? || st.AddValue? {
      ValueRefines(s, a, st);
    } else if st.OpenProduct? || st.OpenExactProduct? {
      ProductRefines(s, a, st);
    } else if st.FindOffer? {
      FindRefines(s, a, st);
    } else if st.OpenParameter? {
      ParameterRefines(s, a, st);
    } else if st.ClearOffers? {
      DeletionRefines(s, a, st);
    } else if st.Raise? {
    } else {
      QuietRefines(s, a, st);
    }
  }

  /** Programs that never insert an offer blindly. */
  ghost predicate SafeBody(p: seq<Stmt>) {
    forall st :: st in p ==> BodyStmt(st) && !st.AddOffer?
  }

  /** Simulation of whole programs of the two importers of the application. */
  lemma {:induction false} RunRefines(s: Session, a: Abs, p: seq<Stmt>)
    requires SafeBody(p) && Core(s.db.catalog) && Match(s.db.catalog, s.regs, a)
    requires s.error.None? && Run(s, p).error.None?
    ensures Core(Run(s, p).db.catalog) && Match(Run(s, p).db.catalog, Run(s, p).regs, AbsRun(a, p))
    decreases |p|
  {
    if p != [] {
      assert p[0] in p;
      ExecRefines(s, a, p[0]);
      RunRefines(Exec(s, p[0]), AbsExec(a, p[0]), p[1..]);
    }
  }

  // ---------- What the view means ----------

  /** The row that holds this shop's offer of the id. */
  ghost predicate OfferRow(c: Catalog, i: Id, shop: Id, ext: int) {
    i in c.infos.rows && c.infos.rows[i].shop == shop && c.infos.rows[i].ext == ext
  }

  /** The value row that holds this text for the row, under a parameter of that name. */
  ghost predicate TextRow(c: Catalog, v: Id, i: Id, name: string, text: string) {
    && v in c.values.rows && c.values.rows[v].info == i && c.values.rows[v].text == text
    && c.values.rows[v].parameter in c.parameters.rows && c.parameters.rows[c.values.rows[v].parameter].name == name
  }

  /** A price list is its rows: one offer per row of the shop, with the row's columns and its product's name. */
  lemma ListIsRows(c: Catalog, shop: Id, ext: int)
    requires Core(c)
    ensures ext in PriceList(c, shop) <==> exists i :: OfferRow(c, i, shop, ext)
    ensures forall i | OfferRow(c, i, shop, ext) ::
      var o, r := PriceList(c, shop)[ext], c.infos.rows[i];
      && r.product in c.products.rows && o.product == c.products.rows[r.product].name
      && o.model == r.model && o.price == r.price && o.rrc == r.rrc && o.quantity == r.quantity
  {
    if i :| OfferRow(c, i, shop, ext) { RowAt(c, i); }
    forall i | OfferRow(c, i, shop, ext) ensures Lookup(InfosAt(c.infos.rows, shop, ext)) == One(i) { RowAt(c, i); }
    if ext in PriceList(c, shop) {
      var i := Lookup(InfosAt(c.infos.rows, shop, ext)).id;
      assert i in InfosAt(c.infos.rows, shop, ext);
      assert OfferRow(c, i, shop, ext);
    }
  }

  /** And its texts are the row's value rows. */
  lemma TextsAreRows(c: Catalog, i: Id, name: string, text: string)
    requires Core(c) && i in c.infos.rows
    ensures var shop, ext := c.infos.rows[i].shop, c.infos.rows[i].ext;
      && ext in PriceList(c, shop)
      && (name in PriceList(c, shop)[ext].parameters && PriceList(c, shop)[ext].parameters[name] == text <==> exists v :: TextRow(c, v, i, name, text))
  {
    RowAt(c, i);
    if v :| TextRow(c, v, i, name, text) {
      ParameterAt(c, c.values.rows[v].parameter);
      ValueAt(c, v);
    }
    var shown := TextAt(c.parameters.rows, c.values.rows, i, name);
    if shown == Some(text) {
      var p := Lookup(ParametersNamed(c.parameters.rows, name)).id;
      assert p in ParametersNamed(c.parameters.rows, name);
      var v := Lookup(ValuesAt(c.values.rows, i, p)).id;
      assert v in ValuesAt(c.values.rows, i, p);
      assert TextRow(c, v, i, name, text);
    }
  }
}
