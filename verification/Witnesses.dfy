/** Concrete stores and files at which a claim about the code fails. */
module Witnesses {
  import opened Prelude
  import opened Tables
  import opened Programs
  import opened PriceView
  import opened LoadSuccess
  import opened LoadResult
  import LoadShared
  import ListingMeaning
  import opened LoadThenImport
  import Recovery
  import PartnerSuccess
  import Partner

  // ---------- A shop with one item ----------

  function Item(quantity: int): Good {
    Good(Given(1), Given(1), Given("P"), Given("M"), Given(1), Given(1), Given(quantity), Missing)
  }

  function ItemFile(goods: seq<Good>): PriceFile {
    PriceFile(Given("A"), Given([CategoryEntry(Given(1), Given("C"))]), Given(goods))
  }

  lemma FirstLoads()
    ensures Run(Begin(EMPTY_DB), LoadProgram(ItemFile([Item(10)]), None)).error.None?
  {
    var f, gs, c := ItemFile([Item(10)]), [Item(10)], EMPTY_DB.catalog;
    var e := CategoryEntry(Given(1), Given("C"));
    assert e in f.categories.value && Accepted(e);
    assert 1 in CategoriesAfter(c, f.categories.value);
    assert LoadSuccess.Opens(CategoriesAfter(c, f.categories.value), gs[0], gs[0].name);
    LoadSucceedsExactly(EMPTY_DB, f, None);
  }

  lemma FirstListed()
    ensures 1 in Listing([Item(10)]) && Listing([Item(10)])[1].quantity == 10
  {
    assert ListingMeaning.Lists([Item(10)], 0, 1);
    ListingMeaning.ListedColumns([Item(10)], 0, 1);
  }

  lemma RowInList(c: Catalog, shop: Id, ext: int) returns (i: Id)
    requires ext in PriceList(c, shop)
    ensures Lookup(InfosAt(c.infos.rows, shop, ext)) == One(i) && i in c.infos.rows
    ensures c.infos.rows[i].quantity == PriceList(c, shop)[ext].quantity
  {
    i := Lookup(InfosAt(c.infos.rows, shop, ext)).id;
    assert i in InfosAt(c.infos.rows, shop, ext);
  }

  lemma FirstProduct()
    ensures var u := Run(Begin(EMPTY_DB), LoadProgram(ItemFile([Item(10)]), None)); ValidCatalog(u.db.catalog) && HasProduct(u.db.catalog, "P")
  {
    FirstLoads();
    LoadShared.LoadAddsExactly(EMPTY_DB, ItemFile([Item(10)]), None);
    assert Names([Item(10)][0], "P");
  }

  /** After the first mention the row is there, with a stock of ten. */
  lemma FirstItem() returns (i: Id)
    ensures var u := Run(Begin(EMPTY_DB), LoadProgram(ItemFile([Item(10)]), None)); var d := u.db.catalog;
      && u.error.None? && ValidCatalog(d) && u.regs.shop in d.shops.rows && HasProduct(d, "P")
      && Lookup(InfosAt(d.infos.rows, u.regs.shop, 1)) == One(i) && i in d.infos.rows && d.infos.rows[i].quantity == 10
  {
    FirstLoads();
    FirstProduct();
    LoadPublishesFile(EMPTY_DB, ItemFile([Item(10)]), None);
    FirstListed();
    var u := Run(Begin(EMPTY_DB), LoadProgram(ItemFile([Item(10)]), None));
    i := RowInList(u.db.catalog, u.regs.shop, 1);
  }

  // ---------- A category that only `do_import` looks up ----------

  /** A file of shop B that sells the known product under a category that nobody has listed. */
  function StrayFile(): PriceFile {
    PriceFile(Given("B"), Given([]), Given([Item(10).(category := Given(99))]))
  }

  lemma StrayLoads(db: Db)
    requires ValidCatalog(db.catalog) && HasProduct(db.catalog, "P")
    ensures Run(Begin(db), LoadProgram(StrayFile(), None)).error.None?
  {
    LoadSucceedsExactly(db, StrayFile(), None);
  }

  /** The input for which `load_data` succeeds and `do_import` of the same file then raises. */
  lemma StrayCategory(task: Id)
    ensures var first := Run(Begin(EMPTY_DB), LoadProgram(ItemFile([Item(10)]), None));
      var loaded := Run(Begin(first.db), LoadProgram(StrayFile(), None));
      first.error.None? && loaded.error.None? && Run(Begin(loaded.db), ImportProgram(StrayFile(), task)).error.Some?
  {
    var i := FirstItem();
    var c := Run(Begin(EMPTY_DB), LoadProgram(ItemFile([Item(10)]), None)).db;
    StrayLoads(c);
    LoadThenImportExactly(c, StrayFile(), None, task);
    NotListed(c.catalog);
  }

  lemma CategoriesOfItemFile()
    ensures 99 !in CategoriesAfter(EMPTY_DB.catalog, ItemFile([Item(10)]).categories.value)
  {}

  lemma CategoriesStored(f: PriceFile)
    requires Run(Begin(EMPTY_DB), LoadProgram(f, None)).error.None?
    ensures f.categories.Given?
    ensures Run(Begin(EMPTY_DB), LoadProgram(f, None)).db.catalog.categories.rows.Keys == CategoriesAfter(EMPTY_DB.catalog, f.categories.value)
  {
    LoadShared.LoadAddsExactly(EMPTY_DB, f, None);
  }

  lemma OneCategory(c: Catalog)
    requires c == Run(Begin(EMPTY_DB), LoadProgram(ItemFile([Item(10)]), None)).db.catalog
    ensures 99 !in c.categories.rows
  {
    FirstLoads();
    CategoriesStored(ItemFile([Item(10)]));
    CategoriesOfItemFile();
    assert 99 !in c.categories.rows.Keys;
  }

  lemma NotListed(c: Catalog)
    requires c == Run(Begin(EMPTY_DB), LoadProgram(ItemFile([Item(10)]), None)).db.catalog
    ensures !CategoriesListed(CategoriesAfter(c, OrEmpty(StrayFile().categories)), OrEmpty(StrayFile().goods))
  {
    OneCategory(c);
    assert 99 !in c.categories.rows.Keys;
    assert OrEmpty(StrayFile().goods)[0] in OrEmpty(StrayFile().goods);
  }

  // ---------- The reference importer ----------

  /** A file of shop A with category 1, whose goods carry no parameters. */
  function PartnerFile(goods: seq<Good>): PriceFile {
    PriceFile(Given("A"), Given([CategoryEntry(Given(1), Given("C"))]), Given(goods))
  }

  function PricedItem(name: string, price: int): Good {
    Good(Given(1), Given(1), Given(name), Given("M"), Given(price), Given(1), Given(1), Given([]))
  }

  ghost function PartnerRun(db: Db, f: PriceFile): Session {
    Run(Begin(db), PartnerProgram(f, 7))
  }

  /** A stranger's shop A: `PartnerUpdate` of user 7 opens a second one. */
  lemma SecondShopOpened()
    ensures var f := Recovery.EmptyFile("A"); var first := Run(Begin(EMPTY_DB), LoadProgram(f, None)); var second := PartnerRun(first.db, f);
      first.error.None? && second.error.None? && !UniqueShops(second.db.catalog)
  {
    var f := Recovery.EmptyFile("A");
    var c := StrangersShop();
    assert PartnerSuccess.PartnerAccepts(c, f, 7);
    var db := Run(Begin(EMPTY_DB), LoadProgram(f, None)).db;
    PartnerSuccess.PartnerSucceedsExactly(db, f, 7);
    Partner.SecondShopExactly(db, f, 7);
  }

  lemma StrangerLoads()
    ensures var first := Run(Begin(EMPTY_DB), LoadProgram(Recovery.EmptyFile("A"), None)); first.error.None? && ValidCatalog(first.db.catalog)
  {
    LoadSucceedsExactly(EMPTY_DB, Recovery.EmptyFile("A"), None);
    LoadShared.LoadAddsExactly(EMPTY_DB, Recovery.EmptyFile("A"), None);
  }

  lemma StrangersRow()
    ensures Run(Begin(EMPTY_DB), LoadProgram(Recovery.EmptyFile("A"), None)).db.catalog.shops == EMPTY_DB.catalog.shops.Insert(Shop("A", None))
  {
    var f, p := Recovery.EmptyFile("A"), LoadProgram(Recovery.EmptyFile("A"), None);
    assert p[..|p|] == p;
    Recovery.PrefixShops(EMPTY_DB, f, None, |p|);
    Nothing(ShopsNamed(EMPTY_DB.catalog.shops.rows, "A"));
  }

  lemma StrangersShop() returns (c: Catalog)
    ensures var first := Run(Begin(EMPTY_DB), LoadProgram(Recovery.EmptyFile("A"), None)); first.error.None? && c == first.db.catalog
    ensures ValidCatalog(c) && ShopsNamed(c.shops.rows, "A") != {} && ShopsOwnedBy(c.shops.rows, 7) == {}
  {
    StrangerLoads();
    StrangersRow();
    c := Run(Begin(EMPTY_DB), LoadProgram(Recovery.EmptyFile("A"), None)).db.catalog;
    assert EMPTY_DB.catalog.shops.next in ShopsNamed(c.shops.rows, "A");
    Nothing(ShopsOwnedBy(c.shops.rows, 7));
  }

  lemma PartnerAcceptsItems(goods: seq<Good>)
    requires forall g :: g in goods ==> exists name, price :: 0 <= price && g == PricedItem(name, price)
    requires PartnerSuccess.DistinctOffers(goods)
    ensures PartnerSuccess.PartnerAccepts(EMPTY_DB.catalog, PartnerFile(goods), 7)
    ensures PartnerRun(EMPTY_DB, PartnerFile(goods)).error.None?
  {
    Nothing(ShopsNamed(EMPTY_DB.catalog.shops.rows, "A"));
    Nothing(ShopsOwnedBy(EMPTY_DB.catalog.shops.rows, 7));
    PartnerSuccess.PartnerSucceedsExactly(EMPTY_DB, PartnerFile(goods), 7);
  }

  lemma FreeItemLoads()
    ensures Run(Begin(EMPTY_DB), LoadProgram(PartnerFile([PricedItem("P", 0)]), Some(7))).error.None?
  {
    var f := PartnerFile([PricedItem("P", 0)]);
    Nothing(ShopsNamed(EMPTY_DB.catalog.shops.rows, "A"));
    Nothing(ShopsOwnedBy(EMPTY_DB.catalog.shops.rows, 7));
    LoadSucceedsExactly(EMPTY_DB, f, Some(7));
  }

  lemma NotPlain(db: Db, f: PriceFile, user: Id)
    requires ValidCatalog(db.catalog) && PartnerSuccess.PartnerAccepts(db.catalog, f, user)
    requires Partner.DistinctIds(f.goods.value) && !Partner.AllPlain(f.goods.value)
    requires Run(Begin(db), LoadProgram(f, Some(user))).error.None?
    ensures var p, l := Run(Begin(db), PartnerProgram(f, user)), Run(Begin(db), LoadProgram(f, Some(user)));
      PriceList(p.db.catalog, p.regs.shop) != PriceList(l.db.catalog, l.regs.shop)
  {
    PartnerSuccess.PartnerSucceedsExactly(db, f, user);
    Partner.PartnerPublishes(db, f, user);
    Partner.BothPublishExactly(db, f, user);
  }

  /** A good for nothing: both succeed, `PartnerUpdate` lists it and `load_data` does not. */
  lemma ListsDiffer()
    ensures var f := PartnerFile([PricedItem("P", 0)]); var p, l := PartnerRun(EMPTY_DB, f), Run(Begin(EMPTY_DB), LoadProgram(f, Some(7)));
      p.error.None? && l.error.None? && PriceList(p.db.catalog, p.regs.shop) != PriceList(l.db.catalog, l.regs.shop)
  {
    var goods := [PricedItem("P", 0)];
    FreeItemLoads();
    PartnerAcceptsItems(goods);
    assert goods[0] in goods;
    NotPlain(EMPTY_DB, PartnerFile(goods), 7);
  }

  /** One id under two names: two rows for one external id. */
  lemma TwoRowsForOneId()
    ensures var t := PartnerRun(EMPTY_DB, PartnerFile([PricedItem("P", 1), PricedItem("Q", 1)]));
      t.error.None? && !OneRowPerOffer(t.db.catalog)
  {
    var goods := [PricedItem("P", 1), PricedItem("Q", 1)];
    PartnerAcceptsItems(goods);
    assert goods[0].id == goods[1].id;
    Partner.RepeatedIdBreaks(EMPTY_DB, PartnerFile(goods), 7);
  }
}
