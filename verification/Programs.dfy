/**
 A parsed price list, and the straight-line programs of database primitives that the three importers
 run for it.  The state after any prefix of such a program is a state that other processes can see,
 and it is what is left if the run dies there: nothing rolls an import back.
 */
module Programs {
  import opened Prelude
  import opened Tables
  import opened Orm

  // ---------- The parsed file ----------

  /** A YAML scalar: Python's `str` of it and its truth value. */
  datatype Scalar = NullScalar | Scalar(text: string, truthy: bool) {
    predicate Truthy() {
      Scalar? && truthy
    }

    function Str(): string {
      if NullScalar? then "None" else text
    }

    function Nullable(): Option<string> {
      if NullScalar? then None else Some(text)
    }
  }

  datatype CategoryEntry = CategoryEntry(id: Field<int>, name: Field<string>)

  datatype Good = Good(
    id: Field<int>,
    category: Field<int>,
    name: Field<string>,
    model: Field<string>,
    price: Field<int>,
    rrc: Field<int>,
    quantity: Field<int>,
    parameters: Field<seq<(string, Scalar)>>)

  datatype PriceFile = PriceFile(
    shop: Field<string>,
    categories: Field<seq<CategoryEntry>>,
    goods: Field<seq<Good>>)

  predicate TruthyInt(f: Field<int>) {
    f.Given? && f.value != 0
  }

  predicate TruthyText(f: Field<string>) {
    f.Given? && f.value != ""
  }

  /** The five fields `load_data` insists on; anything falsy, a zero price or stock included, drops the good. */
  predicate Complete(g: Good) {
    TruthyText(g.name) && TruthyInt(g.category) && TruthyInt(g.id) && TruthyInt(g.price) && TruthyInt(g.quantity)
  }

  function OrEmpty<T>(f: Field<seq<T>>): seq<T> {
    if f.Given? then f.value else []
  }

  /** A good with only its first j parameters. */
  function Clip(g: Good, j: nat): Good
    requires j <= |OrEmpty(g.parameters)|
  {
    g.(parameters := Given(OrEmpty(g.parameters)[..j]))
  }

  // ---------- Statements ----------

  datatype Kind = Products | Categories | Parameters

  datatype Stmt =
    | OpenShop(shopName: Option<string>, owner: Option<Id>)
    | OpenCategory(categoryId: Option<int>, categoryName: Option<string>)
    | LinkCategory
    | FindCategory(categoryId: Option<int>)
    | ClearOffers
    | OpenProduct(productName: Option<string>, inCategory: Option<int>)
    | PutOffer(ext: int, model: Option<string>, price: int, rrc: Option<int>, quantity: int)
    | PatchOffer(extOrNull: Option<int>, priceOrNull: Option<int>, quantityOrNull: Option<int>)
    | FindOffer(extOrNull: Option<int>)
    | OpenParameter(parameterName: string)
    | PutValue(text: string)
    | Raise(error: Error)
    | Tally(kind: Kind)
    | Finish(task: Id)
    // the reference importer only
    | OpenOwnShop(shopName: Option<string>, user: Id)
    | OpenExactCategory(categoryId: Option<int>, categoryName: Option<string>)
    | OpenExactProduct(productName: Option<string>, inCategory: Option<int>)
    | AddOffer(offer: Option<Info>)
    | AddValue(textOrNull: Option<string>)

  /** What `load_data` executes. */
  predicate LoadStmt(st: Stmt) {
    st.OpenShop? || st.OpenCategory? || st.LinkCategory? || st.ClearOffers? || st.OpenProduct? || st.PutOffer? ||
    st.OpenParameter? || st.PutValue? || st.Raise?
  }

  /** What `do_import` executes. */
  predicate ImportStmt(st: Stmt) {
    st.OpenShop? || st.OpenCategory? || st.FindCategory? || st.OpenProduct? || st.PatchOffer? || st.FindOffer? ||
    st.OpenParameter? || st.PutValue? || st.Raise? || st.Tally? || st.Finish?
  }

  /** `load_data` after its shop is open: its only deletion is the explicit one. */
  ghost predicate LoadBody(p: seq<Stmt>) {
    forall st :: st in p ==> LoadStmt(st) && !st.OpenShop?
  }

  /** `load_data` after the deletion. */
  ghost predicate LoadRest(p: seq<Stmt>) {
    LoadBody(p) && ClearOffers !in p
  }

  /** `do_import` after its shop is open. */
  ghost predicate ImportBody(p: seq<Stmt>) {
    forall st :: st in p ==> ImportStmt(st) && !st.OpenShop? && !st.Finish?
  }

  // ---------- State ----------

  datatype Stats = Stats(products: nat, categories: nat, parameters: nat) {
    function Plus(k: Kind): Stats {
      match k
      case Products => this.(products := products + 1)
      case Categories => this.(categories := categories + 1)
      case Parameters => this.(parameters := parameters + 1)
    }
  }

  const NO_STATS := Stats(0, 0, 0)

  datatype Task = Task(file: PriceFile, processed: bool, counts: Stats)

  datatype Db = Db(catalog: Catalog, sales: Sales, tasks: Table<Task>)

  const EMPTY_DB := Db(EMPTY_CATALOG, EMPTY_SALES, EmptyTable())

  /** The importer's local variables. */
  datatype Regs = Regs(shop: Id, category: Id, product: Id, info: Id, parameter: Id, stats: Stats)

  const START := Regs(0, 0, 0, 0, 0, NO_STATS)

  datatype Session = Session(db: Db, regs: Regs, error: Option<Error>)

  function Begin(db: Db): Session {
    Session(db, START, None)
  }

  // ---------- Execution ----------

  /** The primitive behind a statement that touches catalogue tables and yields a row. */
  ghost function Ask(c: Catalog, r: Regs, st: Stmt): Reply {
    match st
    case OpenShop(name, owner) => GetOrCreateShop(c, name, owner)
    case OpenCategory(id, name) => GetOrCreateCategory(c, id, name)
    case LinkCategory => AddLink(c, r.category, r.shop)
    case FindCategory(id) => GetCategory(c, id)
    case OpenProduct(name, category) => GetOrCreateProduct(c, name, category)
    case PutOffer(ext, model, price, rrc, quantity) =>
      if model.None? || rrc.None? then Err(IntegrityError)
      else SaveOffer(c, Info(ext, r.shop, r.product, model.value, price, rrc.value, quantity))
    case PatchOffer(ext, price, quantity) => RestockOffer(c, r.shop, r.product, ext, price, quantity)
    case FindOffer(ext) => GetOffer(c, r.shop, ext)
    case OpenParameter(name) => GetOrCreateParameter(c, name)
    case PutValue(text) => SaveValue(c, r.info, r.parameter, text)
    case OpenOwnShop(name, user) => GetOrCreateOwnShop(c, name, user)
    case OpenExactCategory(id, name) => GetOrCreateExactCategory(c, id, name)
    case OpenExactProduct(name, category) => GetOrCreateExactProduct(c, name, category)
    case AddOffer(offer) =>
      if offer.None? then Err(IntegrityError) else CreateOffer(c, offer.value.(shop := r.shop, product := r.product))
    case AddValue(text) => CreateValue(c, r.info, r.parameter, text)
    case Raise(e) => Err(e)
    case ClearOffers => Ok(ClearShop(c, r.shop), r.shop)
    case Tally(_) => Ok(c, 0)
    case Finish(_) => Ok(c, 0)
  }

  /** Which local variable receives the row. */
  function Keep(r: Regs, st: Stmt, id: Id): Regs {
    match st
    case OpenShop(_, _) => r.(shop := id)
    case OpenOwnShop(_, _) => r.(shop := id)
    case OpenCategory(_, _) => r.(category := id)
    case OpenExactCategory(_, _) => r.(category := id)
    case FindCategory(_) => r.(category := id)
    case OpenProduct(_, _) => r.(product := id)
    case OpenExactProduct(_, _) => r.(product := id)
    case PutOffer(_, _, _, _, _) => r.(info := id)
    case AddOffer(_) => r.(info := id)
    case FindOffer(_) => r.(info := id)
    case OpenParameter(_) => r.(parameter := id)
    case Tally(k) => r.(stats := r.stats.Plus(k))
    case _ => r
  }

  /** Writes outside the catalogue: the cascade into order lines, and the task row at the end. */
  ghost function Spill(db: Db, r: Regs, st: Stmt): Db {
    match st
    case ClearOffers => db.(sales := DropLines(db.sales, InfosOf(db.catalog.infos.rows, r.shop)))
    case Finish(t) =>
      if t in db.tasks.rows then
        db.(tasks := db.tasks.Update(t, db.tasks.rows[t].(processed := true, counts := r.stats)))
      else db
    case _ => db
  }

  ghost function Exec(s: Session, st: Stmt): Session {
    match Ask(s.db.catalog, s.regs, st)
    case Err(e) => s.(error := Some(e))
    case Ok(c, id) => Session(Spill(s.db, s.regs, st).(catalog := c), Keep(s.regs, st, id), None)
  }

  /** Runs a program up to its first error. */
  ghost function Run(s: Session, p: seq<Stmt>): Session
    decreases |p|
  {
    if p == [] || s.error.Some? then s else Run(Exec(s, p[0]), p[1..])
  }

  lemma {:induction false} RunAppend(s: Session, p: seq<Stmt>, q: seq<Stmt>)
    ensures Run(s, p + q) == Run(Run(s, p), q)
    decreases |p|
  {
    if p == [] {
      assert p + q == q;
    } else if s.error.None? {
      assert (p + q)[1..] == p[1..] + q;
      RunAppend(Exec(s, p[0]), p[1..], q);
    }
  }

  lemma RunStep(s: Session, st: Stmt, rest: seq<Stmt>)
    requires s.error.None?
    ensures Run(s, [st] + rest) == Run(Exec(s, st), rest)
    ensures Exec(s, st).error.Some? ==> Run(s, [st] + rest) == Exec(s, st)
  {
    assert ([st] + rest)[1..] == rest;
  }

  /** A run that fails leaves exactly what some error-free prefix of its program leaves. */
  lemma {:induction false} FailureIsPrefix(s: Session, p: seq<Stmt>) returns (k: nat)
    requires s.error.None?
    ensures k <= |p| && Run(s, p[..k]).error.None? && Run(s, p[..k]).db == Run(s, p).db
    ensures Run(s, p).error.None? ==> k == |p|
    ensures Run(s, p).error.Some? ==> k < |p| && Exec(Run(s, p[..k]), p[k]) == Run(s, p)
    decreases |p|
  {
    if p == [] {
      k := 0;
    } else if Exec(s, p[0]).error.Some? {
      k := 0;
      RunStep(s, p[0], p[1..]);
      assert p == [p[0]] + p[1..];
    } else {
      var n := FailureIsPrefix(Exec(s, p[0]), p[1..]);
      k := n + 1;
      assert p[..k][1..] == p[1..][..n];
    }
  }

  /** A prefix that reaches into the second part. */
  lemma Cut(p: seq<Stmt>, q: seq<Stmt>, k: nat)
    requires |p| <= k <= |p| + |q|
    ensures (p + q)[..k] == p + q[..k-|p|]
  {}

  // ---------- Compiling a price list: load_data ----------

  function LoadParameters(ps: seq<(string, Scalar)>): seq<Stmt> {
    if ps == [] then []
    else (if ps[0].0 != "" && ps[0].1.Truthy() then [OpenParameter(ps[0].0), PutValue(ps[0].1.text)] else []) +
         LoadParameters(ps[1..])
  }

  function LoadParameterField(f: Field<seq<(string, Scalar)>>): seq<Stmt> {
    match f
    case Missing => []
    case Null => [Raise(AttributeError)]
    case Given(ps) => LoadParameters(ps)
  }

  function LoadGood(g: Good): seq<Stmt> {
    if !Complete(g) then []
    else
      [ OpenProduct(Some(g.name.value), Some(g.category.value)),
        PutOffer(g.id.value, g.model.GetOr(""), g.price.value, g.rrc.Get(), g.quantity.value) ] +
      LoadParameterField(g.parameters)
  }

  function LoadGoods(gs: seq<Good>): seq<Stmt> {
    if gs == [] then [] else LoadGood(gs[0]) + LoadGoods(gs[1..])
  }

  function LoadCategory(e: CategoryEntry): seq<Stmt> {
    if TruthyInt(e.id) && TruthyText(e.name) then [OpenCategory(Some(e.id.value), Some(e.name.value)), LinkCategory] else []
  }

  function LoadCategories(es: seq<CategoryEntry>): seq<Stmt> {
    if es == [] then [] else LoadCategory(es[0]) + LoadCategories(es[1..])
  }

  function TruthyUser(user: Option<Id>): Option<Id> {
    if user == Some(0) then None else user
  }

  /** Between the shop and the deletion; iterating over an explicit null raises TypeError. */
  function LoadMiddle(f: PriceFile): seq<Stmt> {
    if f.categories.Null? then [Raise(TypeError)] else LoadCategories(OrEmpty(f.categories))
  }

  function LoadHead(f: PriceFile, user: Option<Id>): seq<Stmt> {
    [OpenShop(f.shop.Get(), TruthyUser(user))] + LoadMiddle(f) + [ClearOffers]
  }

  function LoadTail(f: PriceFile): seq<Stmt> {
    if f.goods.Given? then LoadGoods(f.goods.value) else [Raise(TypeError)]
  }

  function LoadProgram(f: PriceFile, user: Option<Id>): seq<Stmt> {
    if f.shop.Missing? || f.categories.Missing? || f.goods.Missing? then [Raise(BadFormat)]
    else LoadHead(f, user) + LoadTail(f)
  }

  lemma {:induction false} LoadGoodsRest(gs: seq<Good>)
    ensures LoadRest(LoadGoods(gs))
    decreases |gs|
  {
    if gs != [] {
      LoadGoodRest(gs[0]);
      LoadGoodsRest(gs[1..]);
    }
  }

  lemma LoadGoodRest(g: Good)
    ensures LoadRest(LoadGood(g))
  {
    LoadParametersRest(OrEmpty(g.parameters));
  }

  lemma {:induction false} LoadParametersRest(ps: seq<(string, Scalar)>)
    ensures LoadRest(LoadParameters(ps))
    decreases |ps|
  {
    if ps != [] {
      LoadParametersRest(ps[1..]);
    }
  }

  lemma {:induction false} LoadCategoriesRest(es: seq<CategoryEntry>)
    ensures LoadRest(LoadCategories(es))
    decreases |es|
  {
    if es != [] {
      LoadCategoriesRest(es[1..]);
    }
  }

  lemma LoadTailRest(f: PriceFile)
    ensures LoadRest(LoadTail(f))
  {
    LoadGoodsRest(OrEmpty(f.goods));
  }

  // ---------- Compiling a price list: do_import ----------

  function ImportParameters(ext: Option<int>, ps: seq<(string, Scalar)>): seq<Stmt> {
    if ps == [] then []
    else [OpenParameter(ps[0].0), FindOffer(ext), PutValue(ps[0].1.Str()), Tally(Parameters)] + ImportParameters(ext, ps[1..])
  }

  function ImportParameterField(ext: Option<int>, f: Field<seq<(string, Scalar)>>): seq<Stmt> {
    match f
    case Missing => []
    case Null => [Raise(AttributeError)]
    case Given(ps) => ImportParameters(ext, ps)
  }

  /** `good['category']`, `good['name']`, `good['id']` raise KeyError when absent. */
  function ImportGood(g: Good): seq<Stmt> {
    if g.category.Missing? then [Raise(KeyError)]
    else if g.name.Missing? then [FindCategory(g.category.Get()), Raise(KeyError)]
    else if g.id.Missing? then
      [FindCategory(g.category.Get()), OpenProduct(g.name.Get(), g.category.Get()), Raise(KeyError)]
    else
      [ FindCategory(g.category.Get()),
        OpenProduct(g.name.Get(), g.category.Get()),
        PatchOffer(g.id.Get(), g.price.GetOr(0), g.quantity.GetOr(0)),
        Tally(Products) ] +
      ImportParameterField(g.id.Get(), g.parameters)
  }

  function ImportGoods(gs: seq<Good>): seq<Stmt> {
    if gs == [] then [] else ImportGood(gs[0]) + ImportGoods(gs[1..])
  }

  function ImportCategory(e: CategoryEntry): seq<Stmt> {
    if e.id.Missing? || e.name.Missing? then [Raise(KeyError)]
    else [OpenCategory(e.id.Get(), e.name.Get()), Tally(Categories)]
  }

  function ImportCategories(es: seq<CategoryEntry>): seq<Stmt> {
    if es == [] then [] else ImportCategory(es[0]) + ImportCategories(es[1..])
  }

  function ImportMiddle(f: PriceFile): seq<Stmt> {
    if f.categories.Null? then [Raise(TypeError)] else ImportCategories(OrEmpty(f.categories))
  }

  function ImportHead(f: PriceFile): seq<Stmt> {
    [OpenShop(f.shop.GetOr("Default Shop"), None)] + ImportMiddle(f)
  }

  function ImportTail(f: PriceFile): seq<Stmt> {
    if f.goods.Null? then [Raise(TypeError)] else ImportGoods(OrEmpty(f.goods))
  }

  function ImportProgram(f: PriceFile, task: Id): seq<Stmt> {
    ImportHead(f) + ImportTail(f) + [Finish(task)]
  }

  // ---------- Compiling a price list: the reference PartnerUpdate ----------

  function PartnerParameters(ps: seq<(string, Scalar)>): seq<Stmt> {
    if ps == [] then [] else [OpenParameter(ps[0].0), AddValue(ps[0].1.Nullable())] + PartnerParameters(ps[1..])
  }

  function PartnerParameterField(f: Field<seq<(string, Scalar)>>): seq<Stmt> {
    match f
    case Missing => [Raise(KeyError)]
    case Null => [Raise(AttributeError)]
    case Given(ps) => PartnerParameters(ps)
  }

  /** The row to create; shop and product come from local variables.  A null column violates NOT NULL. */
  function NewOffer(g: Good): Option<Info> {
    if g.id.Given? && g.model.Given? && g.price.Given? && g.rrc.Given? && g.quantity.Given? then
      Some(Info(g.id.value, 0, 0, g.model.value, g.price.value, g.rrc.value, g.quantity.value))
    else None
  }

  function PartnerGood(g: Good): seq<Stmt> {
    if g.name.Missing? || g.category.Missing? then [Raise(KeyError)]
    else
      [OpenExactProduct(g.name.Get(), g.category.Get())] +
      if g.id.Missing? || g.model.Missing? || g.price.Missing? || g.rrc.Missing? || g.quantity.Missing? then
        [Raise(KeyError)]
      else
        [AddOffer(NewOffer(g))] + PartnerParameterField(g.parameters)
  }

  function PartnerGoods(gs: seq<Good>): seq<Stmt> {
    if gs == [] then [] else PartnerGood(gs[0]) + PartnerGoods(gs[1..])
  }

  function PartnerCategory(e: CategoryEntry): seq<Stmt> {
    if e.id.Missing? || e.name.Missing? then [Raise(KeyError)]
    else [OpenExactCategory(e.id.Get(), e.name.Get()), LinkCategory]
  }

  function PartnerCategories(es: seq<CategoryEntry>): seq<Stmt> {
    if es == [] then [] else PartnerCategory(es[0]) + PartnerCategories(es[1..])
  }

  function MissingOr<T>(f: Field<seq<T>>, p: seq<Stmt>): seq<Stmt> {
    match f
    case Missing => [Raise(KeyError)]
    case Null => [Raise(TypeError)]
    case Given(_) => p
  }

  function PartnerHead(f: PriceFile, user: Id): seq<Stmt> {
    if f.shop.Missing? then [Raise(KeyError)]
    else
      [OpenOwnShop(f.shop.Get(), user)] +
      MissingOr(f.categories, PartnerCategories(OrEmpty(f.categories))) +
      [ClearOffers]
  }

  function PartnerProgram(f: PriceFile, user: Id): seq<Stmt> {
    PartnerHead(f, user) + MissingOr(f.goods, PartnerGoods(OrEmpty(f.goods)))
  }

  // ---------- First statements ----------

  lemma LoadUnfolds(f: PriceFile, user: Option<Id>)
    ensures LoadProgram(f, user) ==
      if f.shop.Missing? || f.categories.Missing? || f.goods.Missing? then [Raise(BadFormat)] + []
      else [OpenShop(f.shop.Get(), TruthyUser(user))] + (LoadMiddle(f) + ([ClearOffers] + LoadTail(f)))
  {}

  lemma ImportUnfolds(f: PriceFile, task: Id)
    ensures ImportProgram(f, task) ==
      [OpenShop(f.shop.GetOr("Default Shop"), None)] + (ImportMiddle(f) + (ImportTail(f) + [Finish(task)]))
  {}

  lemma PartnerUnfolds(f: PriceFile, user: Id)
    ensures var tail := MissingOr(f.goods, PartnerGoods(OrEmpty(f.goods)));
      PartnerProgram(f, user) ==
        if f.shop.Missing? then [Raise(KeyError)] + tail
        else [OpenOwnShop(f.shop.Get(), user)] + (MissingOr(f.categories, PartnerCategories(OrEmpty(f.categories))) + ([ClearOffers] + tail))
  {}
}
