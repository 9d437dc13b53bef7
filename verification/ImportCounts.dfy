/** The counters of a finished `do_import`: one per category entry, per good and per parameter of the file. */
module ImportCounts {
  import opened Prelude
  import opened Orm
  import opened Programs
  import opened ImportFrame
  import opened ImportResult
  import opened ImportAgain

  /** How many times a program counts a thing of this kind. */
  function Count(p: seq<Stmt>, k: Kind): nat {
    if p == [] then 0 else (if p[0] == Tally(k) then 1 else 0) + Count(p[1..], k)
  }

  function Counter(s: Stats, k: Kind): nat {
    match k
    case Products => s.products
    case Categories => s.categories
    case Parameters => s.parameters
  }

  lemma {:induction false} CountAppend(p: seq<Stmt>, q: seq<Stmt>, k: Kind)
    ensures Count(p + q, k) == Count(p, k) + Count(q, k)
    decreases |p|
  {
    if p == [] {
      assert p + q == q;
    } else {
      assert (p + q)[1..] == p[1..] + q;
      CountAppend(p[1..], q, k);
    }
  }

  lemma CountOne(st: Stmt, rest: seq<Stmt>, k: Kind)
    ensures Count([st] + rest, k) == (if st == Tally(k) then 1 else 0) + Count(rest, k)
  {
    assert ([st] + rest)[1..] == rest;
  }

  lemma CountFour(one: Stmt, two: Stmt, three: Stmt, four: Stmt, k: Kind)
    requires !one.Tally? && !two.Tally? && !three.Tally?
    ensures Count([one, two, three, four], k) == if four == Tally(k) then 1 else 0
  {
    assert [one, two, three, four] == [one] + ([two] + ([three] + ([four] + [])));
    CountOne(one, [two] + ([three] + ([four] + [])), k);
    CountOne(two, [three] + ([four] + []), k);
    CountOne(three, [four] + [], k);
    CountOne(four, [], k);
  }

  lemma ExecCounts(s: Session, st: Stmt, k: Kind)
    requires s.error.None? && Exec(s, st).error.None?
    ensures Counter(Exec(s, st).regs.stats, k) == Counter(s.regs.stats, k) + if st == Tally(k) then 1 else 0
  {}

  lemma {:induction false} RunCounts(s: Session, p: seq<Stmt>, k: Kind)
    requires s.error.None? && Run(s, p).error.None?
    ensures Counter(Run(s, p).regs.stats, k) == Counter(s.regs.stats, k) + Count(p, k)
    decreases |p|
  {
    if p != [] {
      ExecCounts(s, p[0], k);
      RunCounts(Exec(s, p[0]), p[1..], k);
    }
  }

  ghost predicate NoRaise(p: seq<Stmt>) {
    forall st :: st in p ==> !st.Raise?
  }

  lemma {:induction false} ParametersCount(ext: Option<int>, ps: seq<(string, Scalar)>, k: Kind)
    ensures Count(ImportParameters(ext, ps), k) == if k == Parameters then |ps| else 0
    decreases |ps|
  {
    if ps != [] {
      ParametersCount(ext, ps[1..], k);
      CountAppend(ImportParameter(ext, ps[0]), ImportParameters(ext, ps[1..]), k);
      CountFour(OpenParameter(ps[0].0), FindOffer(ext), PutValue(ps[0].1.Str()), Tally(Parameters), k);
    }
  }

  lemma GoodCount(g: Good, k: Kind)
    requires NoRaise(ImportGood(g))
    ensures Count(ImportGood(g), k) ==
      match k case Products => 1 case Categories => 0 case Parameters => |OrEmpty(g.parameters)|
  {
    var field := ImportParameterField(g.id.Get(), g.parameters);
    assert g.category.Missing? ==> Raise(KeyError) in ImportGood(g);
    assert g.name.Missing? ==> Raise(KeyError) in ImportGood(g);
    assert g.id.Missing? ==> Raise(KeyError) in ImportGood(g);
    assert ImportGood(g) == ImportRow(g) + field;
    assert forall st :: st in field ==> st in ImportGood(g);
    assert g.parameters.Null? ==> Raise(AttributeError) in field;
    CountAppend(ImportRow(g), field, k);
    ParametersCount(g.id.Get(), OrEmpty(g.parameters), k);
    CountFour(FindCategory(g.category.Get()), OpenProduct(g.name.Get(), g.category.Get()),
              PatchOffer(g.id.Get(), g.price.GetOr(0), g.quantity.GetOr(0)), Tally(Products), k);
  }

  lemma {:induction false} GoodsCount(gs: seq<Good>, k: Kind)
    requires NoRaise(ImportGoods(gs))
    ensures Count(ImportGoods(gs), k) ==
      match k case Products => |gs| case Categories => 0 case Parameters => ParameterCount(gs)
    decreases |gs|
  {
    if gs != [] {
      assert forall st :: st in ImportGood(gs[0]) ==> st in ImportGoods(gs);
      assert forall st :: st in ImportGoods(gs[1..]) ==> st in ImportGoods(gs);
      GoodCount(gs[0], k);
      GoodsCount(gs[1..], k);
      CountAppend(ImportGood(gs[0]), ImportGoods(gs[1..]), k);
    }
  }

  lemma {:induction false} CategoriesCount(es: seq<CategoryEntry>, k: Kind)
    requires NoRaise(ImportCategories(es))
    ensures Count(ImportCategories(es), k) == if k == Categories then |es| else 0
    decreases |es|
  {
    if es != [] {
      var e, rest := es[0], ImportCategories(es[1..]);
      assert e.id.Missing? || e.name.Missing? ==> Raise(KeyError) in ImportCategory(e);
      assert forall st :: st in ImportCategory(e) ==> st in ImportCategories(es);
      assert forall st :: st in rest ==> st in ImportCategories(es);
      CategoriesCount(es[1..], k);
      var one := OpenCategory(e.id.Get(), e.name.Get());
      assert ImportCategories(es) == [one] + ([Tally(Categories)] + rest);
      CountOne(one, [Tally(Categories)] + rest, k);
      CountOne(Tally(Categories), rest, k);
    }
  }

  lemma HeadCount(f: PriceFile, k: Kind)
    requires NoRaise(ImportHead(f))
    ensures Count(ImportHead(f), k) == if k == Categories then |OrEmpty(f.categories)| else 0
  {
    var es, one := OrEmpty(f.categories), OpenShop(f.shop.GetOr("Default Shop"), None);
    assert f.categories.Null? ==> Raise(TypeError) in ImportHead(f);
    assert ImportHead(f) == [one] + ImportCategories(es);
    assert forall st :: st in ImportCategories(es) ==> st in ImportHead(f);
    CategoriesCount(es, k);
    CountOne(one, ImportCategories(es), k);
  }

  /** A program that contains no error counts exactly what its file holds. */
  lemma ProgramCount(f: PriceFile, task: Id, k: Kind)
    requires NoRaise(ImportProgram(f, task))
    ensures Count(ImportProgram(f, task), k) == Counter(CountsOf(f), k)
  {
    var p := ImportProgram(f, task);
    assert forall st :: st in ImportHead(f) ==> st in p;
    assert forall st :: st in ImportTail(f) ==> st in p;
    HeadCount(f, k);
    assert f.goods.Null? ==> Raise(TypeError) in ImportTail(f);
    GoodsCount(OrEmpty(f.goods), k);
    CountAppend(ImportHead(f), ImportTail(f), k);
    CountAppend(ImportHead(f) + ImportTail(f), [Finish(task)], k);
    CountOne(Finish(task), [], k);
    assert [Finish(task)] + [] == [Finish(task)];
  }
}
