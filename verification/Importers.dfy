/**
 The importers as they are written: nested loops over the parsed file, with `continue` and early exits,
 against the database in place.  Each is proved to do exactly what its program does (module Programs);
 what that means is proved about the programs.
 */
module Importers {
  import opened Prelude
  import opened Tables
  import Orm
  import opened Programs
  import opened LoadResult
  import ImportFrame
  import Partner
  import opened Store

  /** The method has come as far as the session, without an error so far. */
  ghost predicate At(db: Database, s: Session)
    reads db
  {
    s.error.None? && s.db == db.Snapshot()
  }

  /** What an exception handler knows: the error, and the tables as they are. */
  ghost predicate Stopped(db: Database, s: Session, error: Option<Orm.Error>)
    reads db
  {
    s.error == error && s.db == db.Snapshot()
  }

  // ---------- load_data ----------

  lemma LoadParametersFrom(ps: seq<(string, Scalar)>, i: nat)
    requires i < |ps|
    ensures var rest := LoadParameters(ps[i+1..]);
      LoadParameters(ps[i..]) ==
        if ps[i].0 == "" || !ps[i].1.Truthy() then rest else [OpenParameter(ps[i].0)] + ([PutValue(ps[i].1.text)] + rest)
  {
    assert ps[i..][1..] == ps[i+1..];
  }

  /** The inner loop over `parameters.items()`. */
  method LoadParameterLoop(db: Database, ghost s: Session, info: Id, ps: seq<(string, Scalar)>)
    returns (error: Option<Orm.Error>, ghost t: Session)
    requires At(db, s) && s.regs.info == info
    modifies db
    ensures t == Run(s, LoadParameters(ps)) && Stopped(db, t, error)
  {
    t := s;
    for i := 0 to |ps|
      invariant At(db, t) && t.regs.info == info
      invariant Run(s, LoadParameters(ps)) == Run(t, LoadParameters(ps[i..]))
    {
      var name, value := ps[i].0, ps[i].1;
      ghost var rest := LoadParameters(ps[i+1..]);
      LoadParametersFrom(ps, i);
      if name == "" || !value.Truthy() {
        continue;
      }
      RunStep(t, OpenParameter(name), [PutValue(value.text)] + rest);
      t := Exec(t, OpenParameter(name));
      var parameter := db.GetOrCreateParameter(name);
      if parameter.Raised? {
        return Some(parameter.error), t;
      }
      RunStep(t, PutValue(value.text), rest);
      t := Exec(t, PutValue(value.text));
      var saved := db.SaveValue(info, parameter.id, value.text);
      if saved.Raised? {
        return Some(saved.error), t;
      }
    }
    error := None;
  }

  /** The body of the loop over goods. */
  method LoadItem(db: Database, ghost s: Session, shop: Id, g: Good) returns (error: Option<Orm.Error>, ghost t: Session)
    requires At(db, s) && s.regs.shop == shop
    modifies db
    ensures t == Run(s, LoadGood(g)) && Stopped(db, t, error)
  {
    t := s;
    if !Complete(g) {
      return None, t;
    }
    ghost var one := OpenProduct(Some(g.name.value), Some(g.category.value));
    ghost var two := PutOffer(g.id.value, g.model.GetOr(""), g.price.value, g.rrc.Get(), g.quantity.value);
    ghost var rest := LoadParameterField(g.parameters);
    assert LoadGood(g) == [one] + ([two] + rest);

    RunStep(t, one, [two] + rest);
    t := Exec(t, one);
    var product := db.GetOrCreateProduct(Some(g.name.value), Some(g.category.value));
    if product.Raised? {
      return Some(product.error), t;
    }

    RunStep(t, two, rest);
    t := Exec(t, two);
    if g.model.Null? || !g.rrc.Given? {
      return Some(Orm.IntegrityError), t;
    }
    var row := Info(g.id.value, shop, product.id, g.model.GetOr("").value, g.price.value, g.rrc.value, g.quantity.value);
    var info := db.SaveOffer(row);
    if info.Raised? {
      return Some(info.error), t;
    }

    match g.parameters {
      case Missing => error := None;
      case Null =>
        RunStep(t, Raise(Orm.AttributeError), []);
        t := Exec(t, Raise(Orm.AttributeError));
        error := Some(Orm.AttributeError);
      case Given(ps) => error, t := LoadParameterLoop(db, t, info.id, ps);
    }
  }

  lemma LoadCategoriesFrom(es: seq<CategoryEntry>, i: nat)
    requires i < |es|
    ensures var rest := LoadCategories(es[i+1..]);
      LoadCategories(es[i..]) ==
        if !TruthyInt(es[i].id) || !TruthyText(es[i].name) then rest
        else [OpenCategory(Some(es[i].id.value), Some(es[i].name.value))] + ([LinkCategory] + rest)
  {
    assert es[i..][1..] == es[i+1..];
  }

  /** The loop over categories. */
  method LoadCategoryLoop(db: Database, ghost s: Session, shop: Id, es: seq<CategoryEntry>)
    returns (error: Option<Orm.Error>, ghost t: Session)
    requires At(db, s) && s.regs.shop == shop
    modifies db
    ensures t == Run(s, LoadCategories(es)) && Stopped(db, t, error)
  {
    t := s;
    for i := 0 to |es|
      invariant At(db, t) && t.regs.shop == shop
      invariant Run(s, LoadCategories(es)) == Run(t, LoadCategories(es[i..]))
    {
      var e := es[i];
      ghost var rest := LoadCategories(es[i+1..]);
      LoadCategoriesFrom(es, i);
      if !TruthyInt(e.id) || !TruthyText(e.name) {
        continue;
      }
      ghost var one := OpenCategory(Some(e.id.value), Some(e.name.value));
      RunStep(t, one, [LinkCategory] + rest);
      t := Exec(t, one);
      var category := db.GetOrCreateCategory(Some(e.id.value), Some(e.name.value));
      assert category.Got?;
      RunStep(t, LinkCategory, rest);
      t := Exec(t, LinkCategory);
      var linked := db.AddLink(category.id, shop);
      if linked.Raised? {
        return Some(linked.error), t;
      }
    }
    error := None;
  }

  /** The loop over goods. */
  method LoadGoodsLoop(db: Database, ghost s: Session, shop: Id, gs: seq<Good>) returns (error: Option<Orm.Error>, ghost t: Session)
    requires At(db, s) && s.regs.shop == shop
    modifies db
    ensures t == Run(s, LoadGoods(gs)) && Stopped(db, t, error)
  {
    t := s;
    for i := 0 to |gs|
      invariant At(db, t) && t.regs.shop == shop
      invariant Run(s, LoadGoods(gs)) == Run(t, LoadGoods(gs[i..]))
    {
      assert gs[i..][1..] == gs[i+1..];
      RunAppend(t, LoadGood(gs[i]), LoadGoods(gs[i+1..]));
      LoadGoodRest(gs[i]);
      RunKeepsShop(t, LoadGood(gs[i]));
      error, t := LoadItem(db, t, shop, gs[i]);
      if error.Some? {
        return;
      }
    }
    error := None;
  }

  /** Everything after the shop is open: categories, deletion, goods. */
  method LoadInto(db: Database, ghost s: Session, f: PriceFile, shop: Id) returns (ok: bool, ghost t: Session)
    requires At(db, s) && s.regs.shop == shop && f.categories != Missing && f.goods != Missing
    modifies db
    ensures t == Run(s, LoadMiddle(f) + ([ClearOffers] + LoadTail(f))) && t.db == db.Snapshot() && (ok <==> t.error.None?)
  {
    RunAppend(s, LoadMiddle(f), [ClearOffers] + LoadTail(f));
    if f.categories.Null? {
      RunStep(s, Raise(Orm.TypeError), []);
      return false, Exec(s, Raise(Orm.TypeError));
    }
    var error;
    error, t := LoadCategoryLoop(db, s, shop, f.categories.value);
    if error.Some? {
      return false, t;
    }
    LoadCategoriesRest(f.categories.value);
    RunKeepsShop(s, LoadCategories(f.categories.value));
    RunStep(t, ClearOffers, LoadTail(f));
    t := Exec(t, ClearOffers);
    db.DeleteOffers(shop);
    if f.goods.Null? {
      RunStep(t, Raise(Orm.TypeError), []);
      return false, Exec(t, Raise(Orm.TypeError));
    }
    error, t := LoadGoodsLoop(db, t, shop, f.goods.value);
    ok := error.None?;
  }

  /** `load_data` on a parsed file; ok is its Status. */
  method LoadData(db: Database, f: PriceFile, user: Option<Id>) returns (ok: bool)
    modifies db
    ensures var s := Run(Begin(old(db.Snapshot())), LoadProgram(f, user));
      db.Snapshot() == s.db && (ok <==> s.error.None?)
  {
    ghost var s := Begin(db.Snapshot());
    LoadUnfolds(f, user);
    if f.shop.Missing? || f.categories.Missing? || f.goods.Missing? {
      RunStep(s, Raise(Orm.BadFormat), []);
      return false;
    }
    ghost var open, rest := OpenShop(f.shop.Get(), TruthyUser(user)), LoadMiddle(f) + ([ClearOffers] + LoadTail(f));
    RunStep(s, open, rest);
    var shop := db.GetOrCreateShop(f.shop.Get(), TruthyUser(user));
    if shop.Raised? {
      return false;
    }
    ghost var t;
    ok, t := LoadInto(db, Exec(s, open), f, shop.id);
  }

  // ---------- do_import ----------

  /** The statistics dictionary of the method is the session's. */
  ghost predicate Counted(s: Session, stats: Stats) {
    s.regs.stats == stats
  }

  /** The body of the inner loop, up to the counter. */
  method ImportOneParameter(db: Database, ghost s: Session, shop: Id, ext: Option<int>, name: string, text: string, ghost rest: seq<Stmt>)
    returns (error: Option<Orm.Error>, ghost t: Session)
    requires At(db, s) && s.regs.shop == shop
    modifies db
    ensures Stopped(db, t, error) && t.regs.shop == shop && t.regs.stats == s.regs.stats
    ensures Run(s, [OpenParameter(name)] + ([FindOffer(ext)] + ([PutValue(text)] + rest))) == Run(t, rest)
    ensures error.Some? ==> Run(t, rest) == t
  {
    ghost var two, three := [FindOffer(ext)] + ([PutValue(text)] + rest), [PutValue(text)] + rest;
    RunStep(s, OpenParameter(name), two);
    t := Exec(s, OpenParameter(name));
    var parameter := db.GetOrCreateParameter(name);
    if parameter.Raised? {
      return Some(parameter.error), t;
    }
    RunStep(t, FindOffer(ext), three);
    t := Exec(t, FindOffer(ext));
    var info := db.GetOffer(shop, ext);
    if info.Raised? {
      return Some(info.error), t;
    }
    RunStep(t, PutValue(text), rest);
    t := Exec(t, PutValue(text));
    var saved := db.SaveValue(info.id, parameter.id, text);
    error := if saved.Raised? then Some(saved.error) else None;
  }

  method ImportParameterLoop(db: Database, ghost s: Session, shop: Id, ext: Option<int>, ps: seq<(string, Scalar)>, counted: Stats)
    returns (error: Option<Orm.Error>, stats: Stats, ghost t: Session)
    requires At(db, s) && s.regs.shop == shop && Counted(s, counted)
    modifies db
    ensures t == Run(s, ImportParameters(ext, ps)) && Stopped(db, t, error) && Counted(t, stats)
  {
    t, stats := s, counted;
    for i := 0 to |ps|
      invariant At(db, t) && t.regs.shop == shop && Counted(t, stats)
      invariant Run(s, ImportParameters(ext, ps)) == Run(t, ImportParameters(ext, ps[i..]))
    {
      var name, text := ps[i].0, ps[i].1.Str();
      ghost var rest := ImportParameters(ext, ps[i+1..]);
      assert ps[i..][1..] == ps[i+1..];
      ghost var tally := [Tally(Parameters)] + rest;
      assert ImportParameters(ext, ps[i..]) == [OpenParameter(name)] + ([FindOffer(ext)] + ([PutValue(text)] + tally));
      error, t := ImportOneParameter(db, t, shop, ext, name, text, tally);
      if error.Some? {
        return;
      }
      RunStep(t, Tally(Parameters), rest);
      t := Exec(t, Tally(Parameters));
      stats := stats.Plus(Parameters);
    }
    error := None;
  }

  /** The lookups and the row update at the top of the loop over goods. */
  method ImportRowOf(db: Database, ghost s: Session, shop: Id, g: Good) returns (error: Option<Orm.Error>, ghost t: Session)
    requires At(db, s) && s.regs.shop == shop
    modifies db
    ensures t == Run(s, RowOrMissing(g)) && Stopped(db, t, error) && t.regs.shop == shop && t.regs.stats == s.regs.stats
    ensures error.None? ==> g.category != Missing && g.name != Missing && g.id != Missing
  {
    t := s;
    if g.category.Missing? {
      RunStep(t, Raise(Orm.KeyError), []);
      return Some(Orm.KeyError), Exec(t, Raise(Orm.KeyError));
    }
    ghost var one, p := FindCategory(g.category.Get()), RowOrMissing(g);
    assert p == [one] + p[1..];
    RunStep(t, one, p[1..]);
    t := Exec(t, one);
    var category := db.GetCategory(g.category.Get());
    if category.Raised? {
      return Some(category.error), t;
    }
    if g.name.Missing? {
      RunStep(t, Raise(Orm.KeyError), []);
      return Some(Orm.KeyError), Exec(t, Raise(Orm.KeyError));
    }
    ghost var two := OpenProduct(g.name.Get(), g.category.Get());
    assert p[1..] == [two] + p[2..];
    RunStep(t, two, p[2..]);
    t := Exec(t, two);
    var product := db.GetOrCreateProduct(g.name.Get(), g.category.Get());
    if product.Raised? {
      return Some(product.error), t;
    }
    if g.id.Missing? {
      RunStep(t, Raise(Orm.KeyError), []);
      return Some(Orm.KeyError), Exec(t, Raise(Orm.KeyError));
    }
    ghost var three := PatchOffer(g.id.Get(), g.price.GetOr(0), g.quantity.GetOr(0));
    assert p[2..] == [three] + [];
    RunStep(t, three, []);
    t := Exec(t, three);
    var info := db.RestockOffer(shop, product.id, g.id.Get(), g.price.GetOr(0), g.quantity.GetOr(0));
    error := if info.Raised? then Some(info.error) else None;
  }

  /** The part of ImportGood before its first tally. */
  function RowOrMissing(g: Good): seq<Stmt> {
    if g.category.Missing? then [Raise(Orm.KeyError)]
    else if g.name.Missing? then [FindCategory(g.category.Get()), Raise(Orm.KeyError)]
    else if g.id.Missing? then
      [FindCategory(g.category.Get()), OpenProduct(g.name.Get(), g.category.Get()), Raise(Orm.KeyError)]
    else
      [ FindCategory(g.category.Get()), OpenProduct(g.name.Get(), g.category.Get()),
        PatchOffer(g.id.Get(), g.price.GetOr(0), g.quantity.GetOr(0)) ]
  }

  function AfterRow(g: Good): seq<Stmt> {
    if g.category.Missing? || g.name.Missing? || g.id.Missing? then []
    else [Tally(Products)] + ImportParameterField(g.id.Get(), g.parameters)
  }

  method ImportItem(db: Database, ghost s: Session, shop: Id, g: Good, counted: Stats)
    returns (error: Option<Orm.Error>, stats: Stats, ghost t: Session)
    requires At(db, s) && s.regs.shop == shop && Counted(s, counted)
    modifies db
    ensures t == Run(s, ImportGood(g)) && Stopped(db, t, error) && Counted(t, stats)
  {
    stats := counted;
    assert ImportGood(g) == RowOrMissing(g) + AfterRow(g);
    RunAppend(s, RowOrMissing(g), AfterRow(g));
    error, t := ImportRowOf(db, s, shop, g);
    if error.Some? {
      return;
    }
    RunStep(t, Tally(Products), ImportParameterField(g.id.Get(), g.parameters));
    t := Exec(t, Tally(Products));
    stats := stats.Plus(Products);
    match g.parameters {
      case Missing =>
      case Null =>
        RunStep(t, Raise(Orm.AttributeError), []);
        error, t := Some(Orm.AttributeError), Exec(t, Raise(Orm.AttributeError));
      case Given(ps) => error, stats, t := ImportParameterLoop(db, t, shop, g.id.Get(), ps, stats);
    }
  }

  method ImportGoodsLoop(db: Database, ghost s: Session, shop: Id, gs: seq<Good>, counted: Stats)
    returns (error: Option<Orm.Error>, stats: Stats, ghost t: Session)
    requires At(db, s) && s.regs.shop == shop && Counted(s, counted)
    modifies db
    ensures t == Run(s, ImportGoods(gs)) && Stopped(db, t, error) && Counted(t, stats)
  {
    t, stats := s, counted;
    for i := 0 to |gs|
      invariant At(db, t) && t.regs.shop == shop && Counted(t, stats)
      invariant Run(s, ImportGoods(gs)) == Run(t, ImportGoods(gs[i..]))
    {
      assert gs[i..][1..] == gs[i+1..];
      RunAppend(t, ImportGood(gs[i]), ImportGoods(gs[i+1..]));
      ImportFrame.ImportGoodBody(gs[i]);
      RunKeepsShop(t, ImportGood(gs[i]));
      error, stats, t := ImportItem(db, t, shop, gs[i], stats);
      if error.Some? {
        return;
      }
    }
    error := None;
  }

  method ImportCategoryLoop(db: Database, ghost s: Session, es: seq<CategoryEntry>, counted: Stats)
    returns (error: Option<Orm.Error>, stats: Stats, ghost t: Session)
    requires At(db, s) && Counted(s, counted)
    modifies db
    ensures t == Run(s, ImportCategories(es)) && Stopped(db, t, error) && Counted(t, stats)
  {
    t, stats := s, counted;
    for i := 0 to |es|
      invariant At(db, t) && Counted(t, stats)
      invariant Run(s, ImportCategories(es)) == Run(t, ImportCategories(es[i..]))
    {
      var e := es[i];
      ghost var rest := ImportCategories(es[i+1..]);
      assert es[i..][1..] == es[i+1..];
      if e.id.Missing? || e.name.Missing? {
        assert ImportCategories(es[i..]) == [Raise(Orm.KeyError)] + rest;
        RunStep(t, Raise(Orm.KeyError), rest);
        return Some(Orm.KeyError), stats, Exec(t, Raise(Orm.KeyError));
      }
      ghost var one := OpenCategory(e.id.Get(), e.name.Get());
      assert ImportCategories(es[i..]) == [one] + ([Tally(Categories)] + rest);
      RunStep(t, one, [Tally(Categories)] + rest);
      t := Exec(t, one);
      var category := db.GetOrCreateCategory(e.id.Get(), e.name.Get());
      if category.Raised? {
        return Some(category.error), stats, t;
      }
      RunStep(t, Tally(Categories), rest);
      t := Exec(t, Tally(Categories));
      stats := stats.Plus(Categories);
    }
    error := None;
  }

  /** Everything after the shop is open: categories, goods, the task row. */
  method ImportInto(db: Database, ghost s: Session, f: PriceFile, shop: Id, task: Id) returns (ok: bool, ghost t: Session)
    requires At(db, s) && s.regs.shop == shop && Counted(s, NO_STATS)
    modifies db
    ensures t == Run(s, ImportMiddle(f) + (ImportTail(f) + [Finish(task)])) && t.db == db.Snapshot() && (ok <==> t.error.None?)
  {
    RunAppend(s, ImportMiddle(f), ImportTail(f) + [Finish(task)]);
    if f.categories.Null? {
      RunStep(s, Raise(Orm.TypeError), []);
      return false, Exec(s, Raise(Orm.TypeError));
    }
    var error, stats;
    error, stats, t := ImportCategoryLoop(db, s, OrEmpty(f.categories), NO_STATS);
    if error.Some? {
      return false, t;
    }
    ImportFrame.ImportCategoriesBody(OrEmpty(f.categories));
    RunKeepsShop(s, ImportCategories(OrEmpty(f.categories)));
    RunAppend(t, ImportTail(f), [Finish(task)]);
    if f.goods.Null? {
      RunStep(t, Raise(Orm.TypeError), []);
      return false, Exec(t, Raise(Orm.TypeError));
    }
    error, stats, t := ImportGoodsLoop(db, t, shop, OrEmpty(f.goods), stats);
    if error.Some? {
      return false, t;
    }
    RunStep(t, Finish(task), []);
    t := Exec(t, Finish(task));
    db.FinishTask(task, stats);
    ok := true;
  }

  /** `do_import`, which answers False for an unknown task and for any exception. */
  method DoImport(db: Database, task: Id) returns (ok: bool)
    modifies db
    ensures var before := old(db.Snapshot());
      if task in before.tasks.rows then
        var s := Run(Begin(before), ImportProgram(before.tasks.rows[task].file, task));
        db.Snapshot() == s.db && (ok <==> s.error.None?)
      else !ok && db.Snapshot() == before
  {
    if task !in db.tasks.rows {
      return false;
    }
    var f := db.tasks.rows[task].file;
    ghost var s := Begin(db.Snapshot());
    ghost var open, rest := OpenShop(f.shop.GetOr("Default Shop"), None), ImportMiddle(f) + (ImportTail(f) + [Finish(task)]);
    ImportUnfolds(f, task);
    RunStep(s, open, rest);
    var shop := db.GetOrCreateShop(f.shop.GetOr("Default Shop"), None);
    if shop.Raised? {
      return false;
    }
    ghost var t;
    ok, t := ImportInto(db, Exec(s, open), f, shop.id, task);
  }

  // ---------- PartnerUpdate ----------

  lemma PartnerParametersFrom(ps: seq<(string, Scalar)>, i: nat)
    requires i < |ps|
    ensures PartnerParameters(ps[i..]) ==
      [OpenParameter(ps[i].0)] + ([AddValue(ps[i].1.Nullable())] + PartnerParameters(ps[i+1..]))
  {
    assert ps[i..][1..] == ps[i+1..];
  }

  method PartnerOneParameter(db: Database, ghost s: Session, info: Id, name: string, text: Option<string>, ghost rest: seq<Stmt>)
    returns (error: Option<Orm.Error>, ghost t: Session)
    requires At(db, s) && s.regs.info == info
    modifies db
    ensures Stopped(db, t, error) && t.regs.info == info
    ensures Run(s, [OpenParameter(name)] + ([AddValue(text)] + rest)) == Run(t, rest)
    ensures error.Some? ==> Run(t, rest) == t
  {
    RunStep(s, OpenParameter(name), [AddValue(text)] + rest);
    t := Exec(s, OpenParameter(name));
    var parameter := db.GetOrCreateParameter(name);
    if parameter.Raised? {
      return Some(parameter.error), t;
    }
    RunStep(t, AddValue(text), rest);
    t := Exec(t, AddValue(text));
    var created := db.CreateValue(info, parameter.id, text);
    error := if created.Raised? then Some(created.error) else None;
  }

  method PartnerParameterLoop(db: Database, ghost s: Session, info: Id, ps: seq<(string, Scalar)>)
    returns (error: Option<Orm.Error>, ghost t: Session)
    requires At(db, s) && s.regs.info == info
    modifies db
    ensures t == Run(s, PartnerParameters(ps)) && Stopped(db, t, error)
  {
    t := s;
    for i := 0 to |ps|
      invariant At(db, t) && t.regs.info == info
      invariant Run(s, PartnerParameters(ps)) == Run(t, PartnerParameters(ps[i..]))
    {
      PartnerParametersFrom(ps, i);
      error, t := PartnerOneParameter(db, t, info, ps[i].0, ps[i].1.Nullable(), PartnerParameters(ps[i+1..]));
      if error.Some? {
        return;
      }
    }
    error := None;
  }

  /** `item['parameters'].items()`, with its KeyError and AttributeError. */
  method PartnerParameterItems(db: Database, ghost s: Session, info: Id, field: Field<seq<(string, Scalar)>>)
    returns (error: Option<Orm.Error>, ghost t: Session)
    requires At(db, s) && s.regs.info == info
    modifies db
    ensures t == Run(s, PartnerParameterField(field)) && Stopped(db, t, error) && t.regs.shop == s.regs.shop
  {
    match field {
      case Missing =>
        RunStep(s, Raise(Orm.KeyError), []);
        error, t := Some(Orm.KeyError), Exec(s, Raise(Orm.KeyError));
      case Null =>
        RunStep(s, Raise(Orm.AttributeError), []);
        error, t := Some(Orm.AttributeError), Exec(s, Raise(Orm.AttributeError));
      case Given(ps) =>
        Partner.PartnerParametersSafe(ps);
        RunKeepsShop(s, PartnerParameters(ps));
        error, t := PartnerParameterLoop(db, s, info, ps);
    }
  }

  /** The creation of one product row for an opened product. */
  method PartnerRow(db: Database, ghost s: Session, shop: Id, product: Id, g: Good) returns (r: Outcome, ghost t: Session)
    requires At(db, s) && s.regs.shop == shop && s.regs.product == product
    modifies db
    ensures t == Exec(s, AddOffer(NewOffer(g))) && t.regs.shop == shop
    ensures if r.Got? then At(db, t) && t.regs.info == r.id else Stopped(db, t, Some(r.error))
  {
    t := Exec(s, AddOffer(NewOffer(g)));
    if NewOffer(g).None? {
      return Raised(Orm.IntegrityError), t;
    }
    r := db.CreateOffer(NewOffer(g).value.(shop := shop, product := product));
  }

  method PartnerItem(db: Database, ghost s: Session, shop: Id, g: Good) returns (error: Option<Orm.Error>, ghost t: Session)
    requires At(db, s) && s.regs.shop == shop
    modifies db
    ensures t == Run(s, PartnerGood(g)) && Stopped(db, t, error) && t.regs.shop == shop
  {
    if g.name.Missing? || g.category.Missing? {
      RunStep(s, Raise(Orm.KeyError), []);
      return Some(Orm.KeyError), Exec(s, Raise(Orm.KeyError));
    }
    ghost var one, p := OpenExactProduct(g.name.Get(), g.category.Get()), PartnerGood(g);
    assert p == [one] + p[1..];
    RunStep(s, one, p[1..]);
    t := Exec(s, one);
    var product := db.GetOrCreateExactProduct(g.name.Get(), g.category.Get());
    if product.Raised? {
      return Some(product.error), t;
    }
    if g.id.Missing? || g.model.Missing? || g.price.Missing? || g.rrc.Missing? || g.quantity.Missing? {
      RunStep(t, Raise(Orm.KeyError), []);
      return Some(Orm.KeyError), Exec(t, Raise(Orm.KeyError));
    }
    ghost var two, field := AddOffer(NewOffer(g)), PartnerParameterField(g.parameters);
    assert p[1..] == [two] + field;
    RunStep(t, two, field);
    var info;
    info, t := PartnerRow(db, t, shop, product.id, g);
    if info.Raised? {
      return Some(info.error), t;
    }
    error, t := PartnerParameterItems(db, t, info.id, g.parameters);
  }

  method PartnerGoodsLoop(db: Database, ghost s: Session, shop: Id, gs: seq<Good>) returns (error: Option<Orm.Error>, ghost t: Session)
    requires At(db, s) && s.regs.shop == shop
    modifies db
    ensures t == Run(s, PartnerGoods(gs)) && Stopped(db, t, error)
  {
    t := s;
    for i := 0 to |gs|
      invariant At(db, t) && t.regs.shop == shop
      invariant Run(s, PartnerGoods(gs)) == Run(t, PartnerGoods(gs[i..]))
    {
      assert gs[i..][1..] == gs[i+1..];
      RunAppend(t, PartnerGood(gs[i]), PartnerGoods(gs[i+1..]));
      error, t := PartnerItem(db, t, shop, gs[i]);
      if error.Some? {
        return;
      }
    }
    error := None;
  }

  method PartnerCategoryLoop(db: Database, ghost s: Session, shop: Id, es: seq<CategoryEntry>)
    returns (error: Option<Orm.Error>, ghost t: Session)
    requires At(db, s) && s.regs.shop == shop
    modifies db
    ensures t == Run(s, PartnerCategories(es)) && Stopped(db, t, error) && t.regs.shop == shop
  {
    t := s;
    for i := 0 to |es|
      invariant At(db, t) && t.regs.shop == shop
      invariant Run(s, PartnerCategories(es)) == Run(t, PartnerCategories(es[i..]))
    {
      var e := es[i];
      ghost var rest := PartnerCategories(es[i+1..]);
      assert es[i..][1..] == es[i+1..];
      if e.id.Missing? || e.name.Missing? {
        assert PartnerCategories(es[i..]) == [Raise(Orm.KeyError)] + rest;
        RunStep(t, Raise(Orm.KeyError), rest);
        return Some(Orm.KeyError), Exec(t, Raise(Orm.KeyError));
      }
      ghost var one := OpenExactCategory(e.id.Get(), e.name.Get());
      assert PartnerCategories(es[i..]) == [one] + ([LinkCategory] + rest);
      RunStep(t, one, [LinkCategory] + rest);
      t := Exec(t, one);
      var category := db.GetOrCreateExactCategory(e.id.Get(), e.name.Get());
      if category.Raised? {
        return Some(category.error), t;
      }
      RunStep(t, LinkCategory, rest);
      t := Exec(t, LinkCategory);
      var linked := db.AddLink(category.id, shop);
      if linked.Raised? {
        return Some(linked.error), t;
      }
    }
    error := None;
  }

  /** Everything after the shop is open: categories, deletion, goods. */
  method PartnerInto(db: Database, ghost s: Session, f: PriceFile, shop: Id) returns (ok: bool, ghost t: Session)
    requires At(db, s) && s.regs.shop == shop
    modifies db
    ensures t == Run(s, MissingOr(f.categories, PartnerCategories(OrEmpty(f.categories))) +
                        ([ClearOffers] + MissingOr(f.goods, PartnerGoods(OrEmpty(f.goods)))))
    ensures t.db == db.Snapshot() && (ok <==> t.error.None?)
  {
    ghost var tail := MissingOr(f.goods, PartnerGoods(OrEmpty(f.goods)));
    RunAppend(s, MissingOr(f.categories, PartnerCategories(OrEmpty(f.categories))), [ClearOffers] + tail);
    if !f.categories.Given? {
      ghost var raise := Raise(if f.categories.Missing? then Orm.KeyError else Orm.TypeError);
      RunStep(s, raise, []);
      return false, Exec(s, raise);
    }
    var error;
    error, t := PartnerCategoryLoop(db, s, shop, f.categories.value);
    if error.Some? {
      return false, t;
    }
    RunStep(t, ClearOffers, tail);
    t := Exec(t, ClearOffers);
    db.DeleteOffers(shop);
    if !f.goods.Given? {
      ghost var raise := Raise(if f.goods.Missing? then Orm.KeyError else Orm.TypeError);
      RunStep(t, raise, []);
      return false, Exec(t, raise);
    }
    error, t := PartnerGoodsLoop(db, t, shop, f.goods.value);
    ok := error.None?;
  }

  /** The body of the reference `PartnerUpdate.post` on a parsed file. */
  method PartnerUpdate(db: Database, f: PriceFile, user: Id) returns (ok: bool)
    modifies db
    ensures var s := Run(Begin(old(db.Snapshot())), PartnerProgram(f, user));
      db.Snapshot() == s.db && (ok <==> s.error.None?)
  {
    ghost var s, tail := Begin(db.Snapshot()), MissingOr(f.goods, PartnerGoods(OrEmpty(f.goods)));
    PartnerUnfolds(f, user);
    if f.shop.Missing? {
      RunStep(s, Raise(Orm.KeyError), tail);
      return false;
    }
    ghost var open := OpenOwnShop(f.shop.Get(), user);
    ghost var rest := MissingOr(f.categories, PartnerCategories(OrEmpty(f.categories))) + ([ClearOffers] + tail);
    RunStep(s, open, rest);
    var shop := db.GetOrCreateOwnShop(f.shop.Get(), user);
    if shop.Raised? {
      return false;
    }
    ghost var t;
    ok, t := PartnerInto(db, Exec(s, open), f, shop.id);
  }
}
