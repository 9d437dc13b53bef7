/**
 `load_data` in the running system, interleaved statement by statement with requests, other commands and
 the worker.  If it gets to its end, and from its deletion on nobody else changes the list of its shop,
 then that list is the one its file describes, whatever all the others did to the shared tables.
 */
module LoadAmongJobs {
  import opened Prelude
  import opened Tables
  import opened Orm
  import opened Programs
  import opened PriceView
  import opened LoadResult
  import opened Recovery
  import opened System
  import opened Safety
  import opened ImportLater

  // ---------- What the other jobs leave in place ----------

  /** Rows are only added under new ids; the identity columns of the old ones do not change. */
  ghost predicate Onward(c: Catalog, d: Catalog) {
    && c.products.next <= d.products.next && c.infos.next <= d.infos.next && c.parameters.next <= d.parameters.next
    && (forall p | p in d.products.rows && p < c.products.next ::
          p in c.products.rows && d.products.rows[p].name == c.products.rows[p].name)
    && (forall i | i in d.infos.rows && i < c.infos.next ::
          i in c.infos.rows && d.infos.rows[i].shop == c.infos.rows[i].shop && d.infos.rows[i].ext == c.infos.rows[i].ext)
    && (forall p | p in d.parameters.rows && p < c.parameters.next ::
          p in c.parameters.rows && d.parameters.rows[p].name == c.parameters.rows[p].name)
  }

  lemma StmtOnward(s: Session, st: Stmt)
    requires JobStmt(st) && ValidCatalog(s.db.catalog)
    ensures Onward(s.db.catalog, Exec(s, st).db.catalog)
  {
    var c, r := s.db.catalog, s.regs;
    if Programs.Ask(c, r, st).Ok? {
      match st
      case PutOffer(ext, _, _, _, _) => if Lookup(InfosAt(c.infos.rows, r.shop, ext)).One? {
        assert Lookup(InfosAt(c.infos.rows, r.shop, ext)).id in InfosAt(c.infos.rows, r.shop, ext);
      }
      case PatchOffer(ext, _, _) => assert Programs.Ask(c, r, st).id in InfosAt(c.infos.rows, r.shop, ext.value);
      case _ =>
    }
  }

  lemma StepOnward(db: Db, job: Job)
    requires ValidCatalog(db.catalog) && forall st :: st in job.rest ==> JobStmt(st)
    ensures Onward(db.catalog, StepJob(db, job).db.catalog)
  {
    if job.rest != [] {
      assert job.rest[0] in job.rest;
      StmtOnward(Session(db, job.regs, None), job.rest[0]);
    }
  }

  lemma LoadStepOnward(y: System, k: nat)
    requires ValidSystem(y)
    ensures Onward(y.db.catalog, Next(y, LoadStep(k)).db.catalog)
  {
    if k < |y.loads| {
      assert LoadJob(y.loads[k]);
      StepOnward(y.db, y.loads[k]);
    }
  }

  lemma WorkerStepOnward(y: System)
    requires ValidSystem(y)
    ensures Onward(y.db.catalog, Next(y, WorkerStep).db.catalog)
  {
    StepOnward(y.db, y.worker);
  }

  lemma NextOnward(y: System, e: Event)
    requires ValidSystem(y)
    ensures Onward(y.db.catalog, Next(y, e).db.catalog)
  {
    match e
    case LoadStep(k) => LoadStepOnward(y, k);
    case WorkerStep => WorkerStepOnward(y);
    case _ => assert Next(y, e).db.catalog == y.db.catalog;
  }

  lemma LoadUntouched(y: System, e: Event, k: nat)
    requires k < |y.loads| && e != LoadStep(k) && e != LoadDies(k)
    ensures k < |Next(y, e).loads| && Next(y, e).loads[k] == y.loads[k]
  {}

  lemma LoadSteps(y: System, k: nat)
    requires k < |y.loads| && y.loads[k].rest != []
    requires Exec(Session(y.db, y.loads[k].regs, None), y.loads[k].rest[0]).error.None?
    ensures var z, job := Next(y, LoadStep(k)), y.loads[k]; var s := Exec(Session(y.db, job.regs, None), job.rest[0]);
      k < |z.loads| && z.db == s.db && z.loads[k] == Job(job.task, s.regs, job.rest[1..])
  {}

  // ---------- The load's own view ----------

  /** The list of the job's shop, and the values its variables stand for, as long as their rows exist. */
  ghost predicate Holds(c: Catalog, r: Regs, a: Abs) {
    && a.shop == r.shop && Of(a.view, r.shop) == PriceList(c, r.shop)
    && r.product < c.products.next && (r.product in c.products.rows ==> c.products.rows[r.product].name == a.product)
    && r.info < c.infos.next && (r.info in c.infos.rows ==> (c.infos.rows[r.info].shop, c.infos.rows[r.info].ext) == a.key)
    && r.parameter < c.parameters.next && (r.parameter in c.parameters.rows ==> c.parameters.rows[r.parameter].name == a.parameter)
  }

  lemma HoldsOn(c: Catalog, d: Catalog, r: Regs, a: Abs)
    requires Holds(c, r, a) && Onward(c, d) && PriceList(d, r.shop) == PriceList(c, r.shop)
    ensures Holds(d, r, a)
  {}

  /** Two views that agree on one shop, for an importer of that shop. */
  ghost predicate SameHere(a: Abs, b: Abs) {
    b == a.(view := b.view) && Of(b.view, a.shop) == Of(a.view, a.shop)
  }

  lemma InPart(v: View, w: View, shop: Id, ext: int)
    requires Of(v, shop) == Of(w, shop)
    ensures (shop, ext) in v <==> (shop, ext) in w
    ensures (shop, ext) in v ==> v[(shop, ext)] == w[(shop, ext)]
  {
    assert ext in Of(v, shop) <==> ext in Of(w, shop);
  }

  lemma PutLocally(a: Abs, b: Abs, st: Stmt)
    requires SameHere(a, b) && st.PutOffer? && st.model.Some? && st.rrc.Some?
    ensures SameHere(AbsExec(a, st), AbsExec(b, st))
  {
    var key := (a.shop, st.ext);
    InPart(a.view, b.view, a.shop, st.ext);
    var o := Offer(a.product, st.model.value, st.price, st.rrc.value, st.quantity, ParametersAt(a.view, key));
    Written(a.view, a.view[key := o], a.shop, st.ext, o);
    Written(b.view, b.view[key := o], a.shop, st.ext, o);
  }

  lemma TextHere(v: View, shop: Id, key: (Id, int), name: string, text: string)
    ensures var here, w := Of(v, shop), WithText(v, key, name, text);
      Of(w, shop) ==
        if key.0 == shop && key.1 in here then here[key.1 := here[key.1].(parameters := here[key.1].parameters[name := text])] else here
  {
    if key in v {
      var o := v[key].(parameters := v[key].parameters[name := text]);
      Written(v, v[key := o], key.0, key.1, o);
    }
  }

  lemma AbsLocal(a: Abs, b: Abs, st: Stmt)
    requires SameHere(a, b) && LoadStmt(st) && !st.OpenShop? && !st.ClearOffers?
    ensures SameHere(AbsExec(a, st), AbsExec(b, st))
  {
    if st.PutOffer? {
      if st.model.Some? && st.rrc.Some? { PutLocally(a, b, st); }
    } else if st.PutValue? {
      TextHere(a.view, a.shop, a.key, a.parameter, st.text);
      TextHere(b.view, a.shop, a.key, a.parameter, st.text);
    }
  }

  lemma RegsInRange(s: Session, a: Abs, st: Stmt)
    requires ValidCatalog(s.db.catalog) && Holds(s.db.catalog, s.regs, a) && LoadStmt(st) && Exec(s, st).error.None?
    ensures var d, r := Exec(s, st).db.catalog, Exec(s, st).regs;
      r.product < d.products.next && r.info < d.infos.next && r.parameter < d.parameters.next
  {
    var c, r := s.db.catalog, s.regs;
    match st
    case OpenProduct(name, _) => if Lookup(ProductsNamed(c.products.rows, name.value)).One? {
      assert Lookup(ProductsNamed(c.products.rows, name.value)).id in ProductsNamed(c.products.rows, name.value);
    }
    case PutOffer(ext, _, _, _, _) => if Lookup(InfosAt(c.infos.rows, r.shop, ext)).One? {
      assert Lookup(InfosAt(c.infos.rows, r.shop, ext)).id in InfosAt(c.infos.rows, r.shop, ext);
    }
    case OpenParameter(name) => if Lookup(ParametersNamed(c.parameters.rows, name)).One? {
      assert Lookup(ParametersNamed(c.parameters.rows, name)).id in ParametersNamed(c.parameters.rows, name);
    }
    case _ =>
  }

  /** One statement of the load does to its shop's list what its abstract counterpart does. */
  lemma OwnStatement(s: Session, a: Abs, st: Stmt)
    requires s.error.None? && ValidCatalog(s.db.catalog) && Holds(s.db.catalog, s.regs, a)
    requires LoadStmt(st) && !st.OpenShop? && !st.ClearOffers? && Exec(s, st).error.None?
    ensures Holds(Exec(s, st).db.catalog, Exec(s, st).regs, AbsExec(a, st))
  {
    var c, b := s.db.catalog, a.(view := ViewOf(s.db.catalog));
    PriceListIsView(c, a.shop);
    ExecRefines(s, b, st);
    AbsLocal(a, b, st);
    PriceListIsView(Exec(s, st).db.catalog, a.shop);
    RegsInRange(s, a, st);
  }

  // ---------- After the deletion ----------

  /** The load takes its steps without an error; from its deletion on nobody else changes its shop's list. */
  ghost predicate Harmless(y: System, e: Event, k: nat)
    requires k < |y.loads|
  {
    var job := y.loads[k];
    if e == LoadStep(k) then job.rest == [] || Exec(Session(y.db, job.regs, None), job.rest[0]).error.None?
    else
      && e != LoadDies(k)
      && (ClearOffers !in job.rest ==> PriceList(Next(y, e).db.catalog, job.regs.shop) == PriceList(y.db.catalog, job.regs.shop))
  }

  ghost predicate Undisturbed(y: System, es: seq<Event>, k: nat)
    decreases |es|
  {
    k < |y.loads| && (es == [] || (Harmless(y, es[0], k) && Undisturbed(Next(y, es[0]), es[1..], k)))
  }

  /** The run ends with the load at its end. */
  ghost predicate Ends(y: System, es: seq<Event>, k: nat) {
    k < |Play(y, es).loads| && Play(y, es).loads[k].rest == []
  }

  lemma EndsLater(y: System, es: seq<Event>, k: nat)
    requires es != [] && Ends(y, es, k)
    ensures Ends(Next(y, es[0]), es[1..], k)
  {}

  /** What the rest of the load makes of its shop's list. */
  ghost predicate Published(z: System, k: nat, a: Abs, rest: seq<Stmt>) {
    && k < |z.loads| && z.loads[k].regs.shop == a.shop
    && NoFault(rest) && PriceList(z.db.catalog, a.shop) == Of(AbsRun(a, rest).view, a.shop)
  }

  lemma PublishedStep(z: System, k: nat, a: Abs, rest: seq<Stmt>)
    requires rest != [] && Tolerated(rest[0]) && AbsExec(a, rest[0]).shop == a.shop
    requires Published(z, k, AbsExec(a, rest[0]), rest[1..])
    ensures Published(z, k, a, rest)
  {
    assert rest == [rest[0]] + rest[1..];
  }

  lemma RanTolerated(s: Session, a: Abs, st: Stmt)
    requires s.error.None? && LoadStmt(st) && Exec(s, st).error.None?
    ensures Tolerated(st) && AbsExec(a, st).shop == a.shop
  {}

  lemma OwnStep(y: System, k: nat, a: Abs)
    requires ValidSystem(y) && k < |y.loads| && y.loads[k].rest != [] && LoadRest(y.loads[k].rest)
    requires Exec(Session(y.db, y.loads[k].regs, None), y.loads[k].rest[0]).error.None? && Holds(y.db.catalog, y.loads[k].regs, a)
    ensures var z, st := Next(y, LoadStep(k)), y.loads[k].rest[0];
      && k < |z.loads| && z.loads[k].rest == y.loads[k].rest[1..]
      && Holds(z.db.catalog, z.loads[k].regs, AbsExec(a, st)) && AbsExec(a, st).shop == a.shop && Tolerated(st)
  {
    var job := y.loads[k];
    assert job.rest[0] in job.rest;
    LoadSteps(y, k);
    OwnStatement(Session(y.db, job.regs, None), a, job.rest[0]);
    RanTolerated(Session(y.db, job.regs, None), a, job.rest[0]);
  }

  lemma OthersStep(y: System, e: Event, k: nat, a: Abs)
    requires ValidSystem(y) && k < |y.loads| && e != LoadStep(k) && Harmless(y, e, k) && ClearOffers !in y.loads[k].rest
    requires Holds(y.db.catalog, y.loads[k].regs, a)
    ensures var z := Next(y, e); k < |z.loads| && z.loads[k] == y.loads[k] && Holds(z.db.catalog, z.loads[k].regs, a)
  {
    LoadUntouched(y, e, k);
    NextOnward(y, e);
    HoldsOn(y.db.catalog, Next(y, e).db.catalog, y.loads[k].regs, a);
  }

  lemma IdleStep(y: System, k: nat)
    requires k < |y.loads| && y.loads[k].rest == []
    ensures var z := Next(y, LoadStep(k)); k < |z.loads| && z.loads[k] == y.loads[k] && z.db == y.db
  {}

  lemma {:induction false} TailAmong(y: System, es: seq<Event>, k: nat, a: Abs)
    requires ValidSystem(y) && Undisturbed(y, es, k) && Ends(y, es, k)
    requires LoadRest(y.loads[k].rest) && Holds(y.db.catalog, y.loads[k].regs, a)
    ensures Published(Play(y, es), k, a, y.loads[k].rest)
    decreases |es|, 1
  {
    if es != [] {
      var e := es[0];
      if e != LoadStep(k) {
        NextKeepsValid(y, e);
        EndsLater(y, es, k);
        OthersStep(y, e, k, a);
        TailAmong(Next(y, e), es[1..], k, a);
      } else {
        TailSteps(y, es, k, a);
      }
    }
  }

  lemma {:induction false} TailSteps(y: System, es: seq<Event>, k: nat, a: Abs)
    requires ValidSystem(y) && Undisturbed(y, es, k) && Ends(y, es, k) && es != [] && es[0] == LoadStep(k)
    requires LoadRest(y.loads[k].rest) && Holds(y.db.catalog, y.loads[k].regs, a)
    ensures Published(Play(y, es), k, a, y.loads[k].rest)
    decreases |es|, 0
  {
    var z, rest := Next(y, es[0]), y.loads[k].rest;
    NextKeepsValid(y, es[0]);
    EndsLater(y, es, k);
    if rest == [] {
      IdleStep(y, k);
      TailAmong(z, es[1..], k, a);
    } else {
      OwnStep(y, k, a);
      assert forall st :: st in rest[1..] ==> st in rest;
      TailAmong(z, es[1..], k, AbsExec(a, rest[0]));
      PublishedStep(Play(z, es[1..]), k, a, rest);
    }
  }

  // ---------- Before the deletion ----------

  /** The shop is open and bears the name; nothing of the goods has been looked up. */
  ghost predicate ShopOpen(c: Catalog, r: Regs, name: string) {
    r == START.(shop := r.shop, category := r.category) && r.shop in c.shops.rows && c.shops.rows[r.shop].name == name
  }

  /** The categories that are left, the deletion, and the goods. */
  ghost predicate BeforeClear(y: System, k: nat, f: PriceFile, head: seq<Stmt>) {
    && k < |y.loads| && f.shop.Given? && ShopOpen(y.db.catalog, y.loads[k].regs, f.shop.value)
    && y.loads[k].rest == head + ([ClearOffers] + LoadTail(f))
    && forall st :: st in head ==> st.OpenCategory? || st.LinkCategory? || st.Raise?
  }

  /** The list in the end. */
  ghost predicate ShopLists(z: System, k: nat, f: PriceFile) {
    && k < |z.loads| && f.goods.Given? && f.shop.Given?
    && var shop := z.loads[k].regs.shop;
    && shop in z.db.catalog.shops.rows && z.db.catalog.shops.rows[shop].name == f.shop.value
    && PriceList(z.db.catalog, shop) == Listing(f.goods.value)
  }

  lemma StaysOpen(y: System, e: Event, r: Regs, name: string)
    requires ValidSystem(y) && ShopOpen(y.db.catalog, r, name)
    ensures ShopOpen(Next(y, e).db.catalog, r, name)
  {
    NextGrows(y, e);
  }

  lemma ClearedList(c: Catalog, shop: Id)
    requires Core(c)
    ensures PriceList(ClearShop(c, shop), shop) == imap[]
  {
    var d := ClearShop(c, shop);
    ClearEffect(c, shop);
    PriceListIsView(d, shop);
    assert forall e: int :: (shop, e) !in ViewOf(d);
    assert forall e: int :: e !in Of(ViewOf(d), shop);
  }

  /** After the deletion the shop lists nothing. */
  lemma Cleared(y: System, k: nat, f: PriceFile) returns (a: Abs)
    requires ValidSystem(y) && BeforeClear(y, k, f, [])
    ensures var z := Next(y, LoadStep(k));
      && k < |z.loads| && z.loads[k].regs == y.loads[k].regs && z.loads[k].rest == LoadTail(f)
      && Holds(z.db.catalog, z.loads[k].regs, a) && Of(a.view, a.shop) == imap[]
  {
    var c, r := y.db.catalog, y.loads[k].regs;
    assert y.loads[k].rest == [ClearOffers] + LoadTail(f);
    LoadSteps(y, k);
    var d := ClearShop(c, r.shop);
    assert Next(y, LoadStep(k)).db.catalog == d;
    ClearedList(c, r.shop);
    PriceListIsView(d, r.shop);
    a := AbsOf(d, r);
  }

  lemma NullGoods(f: PriceFile)
    requires !f.goods.Given?
    ensures !NoFault(LoadTail(f))
  {
    assert LoadTail(f)[0] == Raise(TypeError) && !Tolerated(LoadTail(f)[0]);
  }

  lemma GoodsListed(z: System, k: nat, f: PriceFile, a: Abs)
    requires Published(z, k, a, LoadTail(f)) && Of(a.view, a.shop) == imap[]
    ensures f.goods.Given? && PriceList(z.db.catalog, z.loads[k].regs.shop) == Listing(f.goods.value)
  {
    if !f.goods.Given? {
      NullGoods(f);
    } else {
      AcceptedGoodsSound(f.goods.value);
      AbsGoods(a, f.goods.value);
    }
  }

  lemma ShopStays(y: System, es: seq<Event>, shop: Id)
    requires ValidSystem(y) && shop in y.db.catalog.shops.rows
    ensures shop in Play(y, es).db.catalog.shops.rows && Play(y, es).db.catalog.shops.rows[shop] == y.db.catalog.shops.rows[shop]
  {
    PlayGrows(y, es);
  }

  lemma ClearAmong(y: System, es: seq<Event>, k: nat, f: PriceFile)
    requires ValidSystem(y) && es != [] && es[0] == LoadStep(k) && Undisturbed(y, es, k) && Ends(y, es, k) && BeforeClear(y, k, f, [])
    ensures ShopLists(Play(y, es), k, f)
  {
    var z := Next(y, es[0]);
    NextKeepsValid(y, es[0]);
    EndsLater(y, es, k);
    StaysOpen(y, es[0], y.loads[k].regs, f.shop.value);
    var a := Cleared(y, k, f);
    LoadTailRest(f);
    TailAmong(z, es[1..], k, a);
    GoodsListed(Play(y, es), k, f, a);
    ShopStays(z, es[1..], z.loads[k].regs.shop);
  }

  /** One category entry's statement. */
  lemma CategoryStep(y: System, k: nat, f: PriceFile, head: seq<Stmt>)
    requires ValidSystem(y) && BeforeClear(y, k, f, head) && head != [] && Harmless(y, LoadStep(k), k)
    ensures BeforeClear(Next(y, LoadStep(k)), k, f, head[1..])
  {
    var job := y.loads[k];
    assert head[0] in head && job.rest[0] == head[0];
    assert job.rest[1..] == head[1..] + ([ClearOffers] + LoadTail(f));
    LoadSteps(y, k);
    StaysOpen(y, LoadStep(k), job.regs, f.shop.value);
  }

  lemma BeforeClearStays(y: System, e: Event, k: nat, f: PriceFile, head: seq<Stmt>)
    requires ValidSystem(y) && BeforeClear(y, k, f, head) && e != LoadStep(k) && Harmless(y, e, k)
    ensures BeforeClear(Next(y, e), k, f, head)
  {
    LoadUntouched(y, e, k);
    StaysOpen(y, e, y.loads[k].regs, f.shop.value);
  }

  lemma {:induction false} HeadAmong(y: System, es: seq<Event>, k: nat, f: PriceFile, head: seq<Stmt>)
    requires ValidSystem(y) && Undisturbed(y, es, k) && Ends(y, es, k) && BeforeClear(y, k, f, head)
    ensures ShopLists(Play(y, es), k, f)
    decreases |es|
  {
    if es != [] {
      var e := es[0];
      NextKeepsValid(y, e);
      EndsLater(y, es, k);
      if e != LoadStep(k) {
        BeforeClearStays(y, e, k, f, head);
        HeadAmong(Next(y, e), es[1..], k, f, head);
      } else if head == [] {
        ClearAmong(y, es, k, f);
      } else {
        CategoryStep(y, k, f, head);
        HeadAmong(Next(y, e), es[1..], k, f, head[1..]);
      }
    }
  }

  // ---------- From the start ----------

  lemma OpensShop(y: System, k: nat, f: PriceFile, owner: Option<Id>)
    requires ValidSystem(y) && k < |y.loads| && y.loads[k] == Job(0, START, LoadProgram(f, owner)) && Harmless(y, LoadStep(k), k)
    ensures BeforeClear(Next(y, LoadStep(k)), k, f, LoadMiddle(f))
  {
    LoadUnfolds(f, owner);
    LoadSteps(y, k);
    var name := f.shop.Get();
    if Lookup(ShopsNamed(y.db.catalog.shops.rows, name.value)).One? {
      assert Lookup(ShopsNamed(y.db.catalog.shops.rows, name.value)).id in ShopsNamed(y.db.catalog.shops.rows, name.value);
    }
    DropFirst(OpenShop(name, TruthyUser(owner)), LoadMiddle(f) + ([ClearOffers] + LoadTail(f)));
    QuietCategories(OrEmpty(f.categories));
  }

  lemma {:induction false} WaitsForStart(y: System, es: seq<Event>, k: nat, f: PriceFile, owner: Option<Id>)
    requires ValidSystem(y) && Undisturbed(y, es, k) && Ends(y, es, k) && y.loads[k] == Job(0, START, LoadProgram(f, owner))
    ensures ShopLists(Play(y, es), k, f)
    decreases |es|
  {
    LoadUnfolds(f, owner);
    if es != [] {
      var e := es[0];
      NextKeepsValid(y, e);
      EndsLater(y, es, k);
      if e != LoadStep(k) {
        LoadUntouched(y, e, k);
        WaitsForStart(Next(y, e), es[1..], k, f, owner);
      } else {
        OpensShop(y, k, f, owner);
        HeadAmong(Next(y, e), es[1..], k, f, LoadMiddle(f));
      }
    }
  }

  /**
   In any run after its start: a load that has got to its end, undisturbed since its deletion, has published
   exactly what its file describes, in a shop of the file's name.
   */
  lemma LoadPublishesAmongJobs(y: System, f: PriceFile, owner: Option<Id>, es: seq<Event>)
    requires ValidSystem(y)
    requires var z, k := Next(y, StartLoad(f, owner)), |y.loads|; Undisturbed(z, es, k) && Ends(z, es, k)
    ensures ShopLists(Play(Next(y, StartLoad(f, owner)), es), |y.loads|, f)
  {
    NextKeepsValid(y, StartLoad(f, owner));
    WaitsForStart(Next(y, StartLoad(f, owner)), es, |y.loads|, f, owner);
  }
}
