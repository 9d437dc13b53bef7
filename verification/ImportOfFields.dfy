/**
 `do_import` over the field values of the file: which files get to the end, what the shop's list then
 shows, which rows are added to the shared tables, and what the task row says.  Nothing here is defined by
 the importer's own reading of its fields.
 */
module ImportOfFields {
  import opened Prelude
  import opened Tables
  import opened Orm
  import opened Programs
  import opened PriceView
  import opened LoadSuccess
  import opened LoadResult
  import opened LoadOfFields
  import opened ImportFrame
  import opened ImportResult
  import opened ImportAgain
  import opened ImportSettles
  import opened ImportSuccess
  import opened ImportTwice
  import opened ImportPublishes

  // ---------- The fields that count ----------

  /** An absent number is zero; a null one cannot be stored. */
  predicate StorableNumber(f: Field<int>) {
    f.Missing? || (f.Given? && 0 <= f.value)
  }

  function Number(f: Field<int>): int {
    match f
    case Given(n) => n
    case _ => 0
  }

  /** Python's `str` of a parameter: a null is the text "None", and anything else, falsy or not, its own text. */
  function TextOf(v: Scalar): string {
    match v
    case NullScalar => "None"
    case Scalar(text, _) => text
  }

  /** An absent list is an empty one. */
  function Elements<T>(f: Field<seq<T>>): seq<T> {
    match f
    case Given(s) => s
    case _ => []
  }

  /** The name of an absent shop. */
  function ShopName(f: Field<string>): string {
    match f
    case Given(name) => name
    case _ => "Default Shop"
  }

  ghost predicate ForId(gs: seq<Good>, k: int, ext: int) {
    0 <= k < |gs| && gs[k].id == Given(ext)
  }

  /** The j-th parameter of the k-th good has this name, for this id. */
  ghost predicate SetsAt(gs: seq<Good>, k: int, j: int, ext: int, name: string) {
    ForId(gs, k, ext) && 0 <= j < |Elements(gs[k].parameters)| && Elements(gs[k].parameters)[j].0 == name
  }

  /** A good that can be patched in, wherever it is listed. */
  predicate Stated(g: Good) {
    && g.name.Given? && g.category.Given? && g.id.Given? && !g.parameters.Null?
    && StorableNumber(g.price) && StorableNumber(g.quantity)
  }

  ghost predicate AllStated(gs: seq<Good>) {
    forall k :: 0 <= k < |gs| ==> Stated(gs[k])
  }

  // ---------- Which files get to the end ----------

  /** A shop of this name lists the id. */
  ghost predicate StockedBy(c: Catalog, shop: string, ext: int) {
    exists i | i in c.infos.rows && c.infos.rows[i].ext == ext && c.infos.rows[i].shop in c.shops.rows ::
      c.shops.rows[c.infos.rows[i].shop].name == shop
  }

  /** `do_import` gets to its end for these files and stores, and for no others. */
  lemma AcceptsImportExactly(db: Db, f: PriceFile, task: Id)
    requires ValidCatalog(db.catalog)
    ensures Run(Begin(db), ImportProgram(f, task)).error.None? <==>
      && !f.shop.Null? && !f.categories.Null? && !f.goods.Null?
      && var table := CategoriesImported(db.catalog.categories, Elements(f.categories));
      && table.Some?
      && forall g :: g in Elements(f.goods) ==>
           Stated(g) && g.category.value in table.value.rows && StockedBy(db.catalog, ShopName(f.shop), g.id.value)
  {
    ImportSucceedsExactly(db, f, task);
    var table := CategoriesImported(db.catalog.categories, Elements(f.categories));
    if table.Some? && !f.shop.Null? {
      forall g: Good
        ensures Acceptable(table.value.rows.Keys, g) <==> Stated(g) && g.category.value in table.value.rows
      {}
      forall ext ensures Stocks(db.catalog, f.shop.GetOr("Default Shop").value, ext) <==> StockedBy(db.catalog, ShopName(f.shop), ext) {}
    }
  }

  // ---------- Patched lists, position by position ----------

  lemma StatedPatches(gs: seq<Good>)
    requires gs != [] && AllStated(gs)
    ensures var g := gs[|gs|-1]; Stated(g) && NotNegative(g.price.GetOr(0)) && NotNegative(g.quantity.GetOr(0))
    ensures AllStated(gs[..|gs|-1])
  {
    assert Stated(gs[|gs|-1]);
    var init := gs[..|gs|-1];
    forall k | 0 <= k < |init| ensures Stated(init[k]) { assert init[k] == gs[k]; }
  }

  /** No id comes or goes, and no model or recommended price changes. */
  lemma {:induction false} RestockedFrame(prices: Prices, gs: seq<Good>, ext: int)
    ensures ext in Restocked(prices, gs) <==> ext in prices
    ensures ext in prices ==> Restocked(prices, gs)[ext].model == prices[ext].model && Restocked(prices, gs)[ext].rrc == prices[ext].rrc
    decreases |gs|
  {
    if gs != [] { RestockedFrame(prices, gs[..|gs|-1], ext); }
  }

  lemma {:induction false} RestockedUntouched(prices: Prices, gs: seq<Good>, ext: int)
    requires ext in prices && forall k :: !ForId(gs, k, ext)
    ensures ext in Restocked(prices, gs) && Restocked(prices, gs)[ext] == prices[ext]
    decreases |gs|
  {
    if gs != [] {
      var m := |gs| - 1;
      assert !ForId(gs, m, ext);
      forall k ensures !ForId(gs[..m], k, ext) { assert ForId(gs[..m], k, ext) ==> ForId(gs, k, ext); }
      RestockedUntouched(prices, gs[..m], ext);
    }
  }

  /** The columns are those of the last good with the id. */
  lemma {:induction false} RestockedColumns(prices: Prices, gs: seq<Good>, k: int, ext: int)
    requires AllStated(gs) && ext in prices && ForId(gs, k, ext) && forall i | k < i :: !ForId(gs, i, ext)
    ensures ext in Restocked(prices, gs)
    ensures var o, g := Restocked(prices, gs)[ext], gs[k];
      Given(o.product) == g.name && o.price == Number(g.price) && o.quantity == Number(g.quantity)
    decreases |gs|
  {
    var m := |gs| - 1;
    StatedPatches(gs);
    RestockedFrame(prices, gs[..m], ext);
    if k < m {
      assert ForId(gs[..m], k, ext) && !ForId(gs, m, ext);
      forall i | k < i ensures !ForId(gs[..m], i, ext) { assert ForId(gs[..m], i, ext) ==> ForId(gs, i, ext); }
      RestockedColumns(prices, gs[..m], k, ext);
    }
  }

  lemma {:induction false} LastParameterAt(ps: seq<(string, Scalar)>, j: int, name: string)
    requires 0 <= j < |ps| && ps[j].0 == name && forall i | j < i < |ps| :: ps[i].0 != name
    ensures LastParameter(ps, name) == Some(TextOf(ps[j].1))
    decreases |ps|
  {
    if j < |ps| - 1 { LastParameterAt(ps[..|ps|-1], j, name); }
  }

  lemma {:induction false} NoParameter(ps: seq<(string, Scalar)>, name: string)
    requires forall i | 0 <= i < |ps| :: ps[i].0 != name
    ensures LastParameter(ps, name) == None
    decreases |ps|
  {
    if ps != [] { NoParameter(ps[..|ps|-1], name); }
  }

  lemma NothingSet(gs: seq<Good>, k: int, ext: int, name: string)
    requires ForId(gs, k, ext) && forall j :: !SetsAt(gs, k, j, ext, name)
    ensures LastParameter(OrEmpty(gs[k].parameters), name) == None
  {
    var ps := Elements(gs[k].parameters);
    forall i | 0 <= i < |ps| ensures ps[i].0 != name { assert !SetsAt(gs, k, i, ext, name); }
    NoParameter(ps, name);
  }

  /** A text that no good with the id sets is what it was. */
  lemma {:induction false} RestockedOldText(prices: Prices, gs: seq<Good>, ext: int, name: string)
    requires AllStated(gs) && ext in prices && forall k, j :: !SetsAt(gs, k, j, ext, name)
    ensures ext in Restocked(prices, gs)
    ensures var now, was := Restocked(prices, gs)[ext].parameters, prices[ext].parameters;
      (name in now <==> name in was) && (name in was ==> now[name] == was[name])
    decreases |gs|
  {
    if gs != [] {
      var m := |gs| - 1;
      StatedPatches(gs);
      forall k, j ensures !SetsAt(gs[..m], k, j, ext, name) {
        assert SetsAt(gs[..m], k, j, ext, name) ==> SetsAt(gs, k, j, ext, name);
      }
      RestockedOldText(prices, gs[..m], ext, name);
      if ForId(gs, m, ext) {
        NothingSet(gs, m, ext, name);
        MergeAllShows(Restocked(prices, gs[..m])[ext].parameters, OrEmpty(gs[m].parameters), name);
      }
    }
  }

  /** Any other shows the last text that one of them gives it, and "None" for a null. */
  lemma {:induction false} RestockedText(prices: Prices, gs: seq<Good>, k: int, j: int, ext: int, name: string)
    requires AllStated(gs) && ext in prices && SetsAt(gs, k, j, ext, name)
    requires forall k', j' | k < k' || (k == k' && j < j') :: !SetsAt(gs, k', j', ext, name)
    ensures ext in Restocked(prices, gs) && name in Restocked(prices, gs)[ext].parameters
    ensures Restocked(prices, gs)[ext].parameters[name] == TextOf(Elements(gs[k].parameters)[j].1)
    decreases |gs|
  {
    var m := |gs| - 1;
    var init := gs[..m];
    StatedPatches(gs);
    RestockedFrame(prices, init, ext);
    var before := Restocked(prices, init)[ext].parameters;
    if k == m {
      var ps := Elements(gs[m].parameters);
      forall i | j < i < |ps| ensures ps[i].0 != name { assert !SetsAt(gs, m, i, ext, name); }
      LastParameterAt(ps, j, name);
      MergeAllShows(before, ps, name);
    } else {
      assert SetsAt(init, k, j, ext, name);
      forall k', j' | k < k' || (k == k' && j < j') ensures !SetsAt(init, k', j', ext, name) {
        assert SetsAt(init, k', j', ext, name) ==> SetsAt(gs, k', j', ext, name);
      }
      RestockedText(prices, init, k, j, ext, name);
      if ForId(gs, m, ext) {
        forall i ensures !SetsAt(gs, m, i, ext, name) {}
        NothingSet(gs, m, ext, name);
        MergeAllShows(before, OrEmpty(gs[m].parameters), name);
      }
    }
  }

  // ---------- The list that is published ----------

  /** A success has patched the shop's list by goods that are all stated and listed. */
  lemma PatchedList(db: Db, f: PriceFile, task: Id)
    requires ValidCatalog(db.catalog) && Run(Begin(db), ImportProgram(f, task)).error.None?
    ensures AllStated(Elements(f.goods))
    ensures var t := Run(Begin(db), ImportProgram(f, task));
      PriceList(t.db.catalog, t.regs.shop) == Restocked(PriceList(db.catalog, t.regs.shop), Elements(f.goods))
  {
    AcceptsImportExactly(db, f, task);
    ImportPublishesPatches(db, f, task);
    forall k | 0 <= k < |Elements(f.goods)| ensures Stated(Elements(f.goods)[k]) { assert Elements(f.goods)[k] in Elements(f.goods); }
  }

  /** Every good's id was listed; the ids, the models and the recommended prices are what they were. */
  lemma ImportKeepsIds(db: Db, f: PriceFile, task: Id, ext: int)
    requires ValidCatalog(db.catalog) && Run(Begin(db), ImportProgram(f, task)).error.None?
    ensures var t := Run(Begin(db), ImportProgram(f, task)); var was, list := PriceList(db.catalog, t.regs.shop), PriceList(t.db.catalog, t.regs.shop);
      && (ext in list <==> ext in was)
      && (ext in was ==> list[ext].model == was[ext].model && list[ext].rrc == was[ext].rrc)
      && ((exists k :: ForId(Elements(f.goods), k, ext)) ==> ext in was)
      && (ext in was && (forall k :: !ForId(Elements(f.goods), k, ext)) ==> list[ext] == was[ext])
  {
    PatchedList(db, f, task);
    var t, gs := Run(Begin(db), ImportProgram(f, task)), Elements(f.goods);
    var was := PriceList(db.catalog, t.regs.shop);
    RestockedFrame(was, gs, ext);
    if ext in was && forall k :: !ForId(gs, k, ext) { RestockedUntouched(was, gs, ext); }
    if k :| ForId(gs, k, ext) { GoodWasListed(db, f, task, k); }
  }

  lemma GoodWasListed(db: Db, f: PriceFile, task: Id, k: int)
    requires ValidCatalog(db.catalog) && Run(Begin(db), ImportProgram(f, task)).error.None? && 0 <= k < |Elements(f.goods)|
    ensures Elements(f.goods)[k].id.Given?
    ensures Elements(f.goods)[k].id.value in PriceList(db.catalog, Run(Begin(db), ImportProgram(f, task)).regs.shop)
  {
    var g, t := Elements(f.goods)[k], Run(Begin(db), ImportProgram(f, task));
    assert g in OrEmpty(f.goods);
    AcceptsImportExactly(db, f, task);
    ImportSettlesStore(db, f, task);
    assert AllSupported(t.db.catalog, OrEmpty(f.goods));
    PatchedList(db, f, task);
    RestockedFrame(PriceList(db.catalog, t.regs.shop), Elements(f.goods), g.id.value);
    AgreesLists(PriceList(t.db.catalog, t.regs.shop), OrEmpty(f.goods), g);
  }

  lemma AgreesLists(prices: Prices, gs: seq<Good>, g: Good)
    requires AgreesWith(prices, gs) && g in gs && g.id.Given?
    ensures g.id.value in prices
  {
    MentionedGood(gs, g);
  }

  /** Name, price and stock of the last good with the id; an absent price or stock is zero. */
  lemma ImportShowsColumns(db: Db, f: PriceFile, task: Id, k: int, ext: int)
    requires ValidCatalog(db.catalog) && Run(Begin(db), ImportProgram(f, task)).error.None?
    requires ForId(Elements(f.goods), k, ext) && forall i | k < i :: !ForId(Elements(f.goods), i, ext)
    ensures var t, g := Run(Begin(db), ImportProgram(f, task)), Elements(f.goods)[k]; var list := PriceList(t.db.catalog, t.regs.shop);
      ext in list && Given(list[ext].product) == g.name && list[ext].price == Number(g.price) && list[ext].quantity == Number(g.quantity)
  {
    PatchedList(db, f, task);
    GoodWasListed(db, f, task, k);
    RestockedColumns(PriceList(db.catalog, Run(Begin(db), ImportProgram(f, task)).regs.shop), Elements(f.goods), k, ext);
  }

  /** A parameter shows its last text over all goods with the id: "None" for a null, and falsy values as they are. */
  lemma ImportShowsText(db: Db, f: PriceFile, task: Id, k: int, j: int, ext: int, name: string)
    requires ValidCatalog(db.catalog) && Run(Begin(db), ImportProgram(f, task)).error.None?
    requires SetsAt(Elements(f.goods), k, j, ext, name)
    requires forall k', j' | k < k' || (k == k' && j < j') :: !SetsAt(Elements(f.goods), k', j', ext, name)
    ensures var t := Run(Begin(db), ImportProgram(f, task)); var list, v := PriceList(t.db.catalog, t.regs.shop), Elements(Elements(f.goods)[k].parameters)[j].1;
      && ext in list && name in list[ext].parameters
      && list[ext].parameters[name] == (if v.NullScalar? then "None" else v.text)
  {
    PatchedList(db, f, task);
    GoodWasListed(db, f, task, k);
    RestockedText(PriceList(db.catalog, Run(Begin(db), ImportProgram(f, task)).regs.shop), Elements(f.goods), k, j, ext, name);
  }

  /** A parameter that no good with the id mentions is as before. */
  lemma ImportKeepsText(db: Db, f: PriceFile, task: Id, ext: int, name: string)
    requires ValidCatalog(db.catalog) && Run(Begin(db), ImportProgram(f, task)).error.None?
    requires forall k, j :: !SetsAt(Elements(f.goods), k, j, ext, name)
    ensures var t := Run(Begin(db), ImportProgram(f, task)); var was, list := PriceList(db.catalog, t.regs.shop), PriceList(t.db.catalog, t.regs.shop);
      ext in was ==>
        && ext in list && (name in list[ext].parameters <==> name in was[ext].parameters)
        && (name in was[ext].parameters ==> list[ext].parameters[name] == was[ext].parameters[name])
  {
    PatchedList(db, f, task);
    var was := PriceList(db.catalog, Run(Begin(db), ImportProgram(f, task)).regs.shop);
    if ext in was { RestockedOldText(was, Elements(f.goods), ext, name); }
  }

  // ---------- The shared tables ----------

  /** The first good of the file under this name. */
  ghost predicate FirstUnder(gs: seq<Good>, k: int, name: string) {
    0 <= k < |gs| && gs[k].name == Given(name) && forall i | 0 <= i < k :: gs[i].name != Given(name)
  }

  /** Old products stay; a new one bears a name unknown before, in the category of the first good of that name. */
  ghost predicate ProductsFrom(c: Catalog, d: Catalog, gs: seq<Good>) {
    && (forall p :: p in c.products.rows ==> p in d.products.rows && d.products.rows[p] == c.products.rows[p])
    && (forall p :: p in d.products.rows && p !in c.products.rows ==>
          !ProductKnown(c, d.products.rows[p].name) &&
          exists k :: FirstUnder(gs, k, d.products.rows[p].name) && gs[k].category == Given(d.products.rows[p].category))
    && (forall k :: 0 <= k < |gs| ==> gs[k].name.Given? && ProductKnown(d, gs[k].name.value))
  }

  /** What nothing but the opening of a product writes. */
  lemma {:induction false} KeepsProducts(s: Session, p: seq<Stmt>)
    requires ImportBody(p) && forall st :: st in p ==> !st.OpenProduct? && !st.OpenCategory?
    ensures var c, t := s.db.catalog, Run(s, p);
      t.db.catalog.products == c.products && t.db.catalog.categories == c.categories &&
      t.db.catalog.shops == c.shops && t.db.catalog.links == c.links && t.regs.shop == s.regs.shop
    decreases |p|
  {
    if p != [] && s.error.None? {
      assert p[0] in p;
      KeepsProducts(Exec(s, p[0]), p[1..]);
    }
  }

  lemma {:induction false} ParametersOpenNoProduct(ext: Option<int>, ps: seq<(string, Scalar)>)
    ensures forall st :: st in ImportParameters(ext, ps) ==> !st.OpenProduct? && !st.OpenCategory?
    decreases |ps|
  {
    if ps != [] { ParametersOpenNoProduct(ext, ps[1..]); }
  }

  /** One good: its product, under its category if it is new. */
  lemma GoodAdds(s: Session, g: Good)
    requires s.error.None? && ValidCatalog(s.db.catalog) && Run(s, ImportGood(g)).error.None?
    ensures var c, t := s.db.catalog, Run(s, ImportGood(g)); var d := t.db.catalog;
      && g.name.Given? && g.category.Given?
      && d.products == ProductsWith(c, g.name.value, g.category.value)
      && (forall n :: HasProduct(d, n) <==> HasProduct(c, n) || n == g.name.value)
      && d.categories == c.categories && d.shops == c.shops && d.links == c.links && t.regs.shop == s.regs.shop && ValidCatalog(d)
  {
    ImportedGood(s, g);
    var one, two := ImportGood(g)[0], ImportGood(g)[1];
    var rest := [ImportGood(g)[2], ImportGood(g)[3]] + ImportParameterField(g.id.Get(), g.parameters);
    assert ImportGood(g) == [one] + ([two] + rest);
    RanFirst(s, one, [two] + rest);
    CategoryRan(s, g);
    var s1 := Exec(s, one);
    RanFirst(s1, two, rest);
    ProductRuns(s1, g.name.value, g.category.value);
    ImportParametersBody(g.id.Get(), OrEmpty(g.parameters));
    ParametersOpenNoProduct(g.id.Get(), OrEmpty(g.parameters));
    KeepsProducts(Exec(s1, two), rest);
    ImportGoodBody(g);
    ImportKeeps(s, ImportGood(g));
  }

  lemma FirstLater(gs: seq<Good>, k: int, name: string)
    requires gs != [] && gs[0].name != Given(name) && FirstUnder(gs[1..], k, name)
    ensures FirstUnder(gs, k + 1, name)
  {
    forall i | 0 <= i < k + 1 ensures gs[i].name != Given(name) {
      if i > 0 { assert gs[1..][i-1] == gs[i]; }
    }
  }

  lemma ProductsFromFirst(c: Catalog, m: Catalog, d: Catalog, gs: seq<Good>)
    requires gs != [] && c.products.Fresh() && gs[0].name.Given? && gs[0].category.Given?
    requires m.products == ProductsWith(c, gs[0].name.value, gs[0].category.value) && ProductsFrom(m, d, gs[1..])
    requires forall n :: HasProduct(m, n) <==> HasProduct(c, n) || n == gs[0].name.value
    ensures ProductsFrom(c, d, gs)
  {
    var name := gs[0].name.value;
    forall n ensures ProductKnown(c, n) <==> HasProduct(c, n) { KnownIsProduct(c, n); }
    forall n ensures ProductKnown(m, n) <==> HasProduct(m, n) { KnownIsProduct(m, n); }
    forall p | p in d.products.rows && p !in c.products.rows
      ensures !ProductKnown(c, d.products.rows[p].name)
      ensures exists k :: FirstUnder(gs, k, d.products.rows[p].name) && gs[k].category == Given(d.products.rows[p].category)
    {
      var row := d.products.rows[p];
      if p in m.products.rows {
        assert m.products.rows[p] == Product(name, gs[0].category.value) == row;
        assert FirstUnder(gs, 0, name);
      } else {
        var k :| FirstUnder(gs[1..], k, row.name) && gs[1..][k].category == Given(row.category);
        assert !ProductKnown(m, row.name) && row.name != name;
        FirstLater(gs, k, row.name);
      }
    }
    KnownStays(m, d, name);
    forall k | 0 <= k < |gs| ensures gs[k].name.Given? && ProductKnown(d, gs[k].name.value) {
      if k > 0 { assert gs[1..][k-1] == gs[k]; }
    }
  }

  lemma KnownStays(c: Catalog, d: Catalog, name: string)
    requires ProductKnown(c, name) && forall p :: p in c.products.rows ==> p in d.products.rows && d.products.rows[p] == c.products.rows[p]
    ensures ProductKnown(d, name)
  {
    var p :| p in c.products.rows && c.products.rows[p].name == name;
    assert p in d.products.rows && d.products.rows[p].name == name;
  }

  lemma {:induction false} GoodsAdd(s: Session, gs: seq<Good>)
    requires s.error.None? && ValidCatalog(s.db.catalog) && Run(s, ImportGoods(gs)).error.None?
    ensures var c, t := s.db.catalog, Run(s, ImportGoods(gs)); var d := t.db.catalog;
      && ProductsFrom(c, d, gs) && d.categories == c.categories && d.shops == c.shops && d.links == c.links && t.regs.shop == s.regs.shop
    decreases |gs|
  {
    if gs != [] {
      var g, rest := gs[0], gs[1..];
      RanHalves(s, ImportGood(g), ImportGoods(rest));
      GoodAdds(s, g);
      var u := Run(s, ImportGood(g));
      GoodsAdd(u, rest);
      ProductsFromFirst(s.db.catalog, u.db.catalog, Run(u, ImportGoods(rest)).db.catalog, gs);
    }
  }

  lemma HeadAdds(db: Db, f: PriceFile)
    requires ValidCatalog(db.catalog) && Run(Begin(db), ImportHead(f)).error.None?
    ensures !f.shop.Null? && !f.categories.Null?
    ensures var c, t := db.catalog, Run(Begin(db), ImportHead(f)); var d := t.db.catalog;
      && ValidCatalog(d) && d.products == c.products && d.links == c.links
      && CategoriesImported(c.categories, Elements(f.categories)) == Some(d.categories)
      && d.shops == (if ShopKnown(c, ShopName(f.shop)) then c.shops
                     else Table(c.shops.rows[c.shops.next := Shop(ShopName(f.shop), None)], c.shops.next + 1))
  {
    ImportHeadSucceeds(db, f);
    var s, one, es := Begin(db), OpenShop(f.shop.GetOr("Default Shop"), None), OrEmpty(f.categories);
    assert ImportHead(f) == [one] + ImportCategories(es);
    RanFirst(s, one, ImportCategories(es));
    KnownIsNamed(db.catalog, ShopName(f.shop));
    OneShop(db.catalog, ShopName(f.shop));
    ImportStmtKeeps(s, one);
    CategoriesImport(Exec(s, one), es);
  }

  /** Shop, links, categories and products after a success; orders are not touched. */
  lemma ImportAddsExactly(db: Db, f: PriceFile, task: Id)
    requires ValidCatalog(db.catalog) && Run(Begin(db), ImportProgram(f, task)).error.None?
    ensures !f.shop.Null? && !f.categories.Null? && !f.goods.Null?
    ensures var c, t := db.catalog, Run(Begin(db), ImportProgram(f, task)); var d := t.db.catalog;
      && d.shops == (if ShopKnown(c, ShopName(f.shop)) then c.shops
                     else Table(c.shops.rows[c.shops.next := Shop(ShopName(f.shop), None)], c.shops.next + 1))
      && d.links == c.links
      && CategoriesImported(c.categories, Elements(f.categories)) == Some(d.categories)
      && ProductsFrom(c, d, Elements(f.goods))
      && t.db.sales == db.sales
  {
    AcceptsImportExactly(db, f, task);
    var s, head, tail, gs := Begin(db), ImportHead(f), ImportTail(f), Elements(f.goods);
    RanHalves(s, head + tail, [Finish(task)]);
    RanHalves(s, head, tail);
    HeadAdds(db, f);
    GoodsAdd(Run(s, head), gs);
    FinishRuns(Run(s, head + tail), task);
    ProductsFromSame(db.catalog, Run(s, head).db.catalog, Run(s, head + tail).db.catalog, gs);
    ImportProgramStmts(f, task);
    ImportKeeps(s, ImportProgram(f, task));
  }

  lemma ProductsFromSame(c: Catalog, m: Catalog, d: Catalog, gs: seq<Good>)
    requires m.products == c.products && ProductsFrom(m, d, gs)
    ensures ProductsFrom(c, d, gs)
  {
    forall n ensures ProductKnown(c, n) <==> ProductKnown(m, n) {}
  }

  // ---------- The task row ----------

  /** The parameters of all goods together. */
  function ParametersOf(gs: seq<Good>): nat {
    if gs == [] then 0 else ParametersOf(gs[..|gs|-1]) + |Elements(gs[|gs|-1].parameters)|
  }

  lemma {:induction false} ParametersCounted(gs: seq<Good>)
    ensures ParametersOf(gs) == ParameterCount(gs)
    decreases |gs|
  {
    if gs != [] {
      ParametersCounted(gs[..|gs|-1]);
      ParameterCountSnoc(gs);
    }
  }

  /** The task is marked, with one count per good, category entry and parameter; no other task changes. */
  lemma ImportMarksTask(db: Db, f: PriceFile, task: Id)
    requires Run(Begin(db), ImportProgram(f, task)).error.None? && task in db.tasks.rows
    ensures Run(Begin(db), ImportProgram(f, task)).db.tasks ==
      Table(db.tasks.rows[task := Task(db.tasks.rows[task].file, true, Stats(|Elements(f.goods)|, |Elements(f.categories)|, ParametersOf(Elements(f.goods))))], db.tasks.next)
  {
    TaskWritten(db, f, task);
    ParametersCounted(Elements(f.goods));
  }
}
