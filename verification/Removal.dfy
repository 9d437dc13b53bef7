/**
 Removing several lines at once: what a batch deletes, counts and takes off the total, and why the
 reference implementation, which ORs one filter per decimal id, deletes the same lines.
 */
module Removal {
  import opened Prelude
  import opened Tables
  import opened Programs
  import opened Cart
  import opened Totals

  // ---------- Batch delete ----------

  /** What some lines are worth at live prices. */
  function Worth(infos: map<Id, Info>, lines: map<Id, Line>, some: set<Id>): map<Id, int>
    requires forall l :: l in some ==> l in lines && lines[l].info in infos
  {
    map l | l in some :: lines[l].quantity * infos[lines[l].info].price
  }

  lemma TotalWithout(infos: map<Id, Info>, lines: map<Id, Line>, b: Id, ids: seq<int>, order: Id)
    requires forall l :: l in lines ==> lines[l].info in infos
    ensures var gone := Named(lines, b, ids);
      Sum(LineTotals(infos, lines - gone, order)) ==
        Sum(LineTotals(infos, lines, order)) - if order == b then Sum(Worth(infos, lines, gone)) else 0
  {
    var gone := Named(lines, b, ids);
    var all := LineTotals(infos, lines, order);
    SumSplit(all, gone);
    var part := map l | l in all && l in gone :: all[l];
    if order == b {
      var worth := Worth(infos, lines, gone);
      assert forall l :: l in part <==> l in worth;
      forall l | l in part ensures part[l] == worth[l] {}
      assert part == worth;
    } else {
      assert part == map[];
    }
    assert LineTotals(infos, lines - gone, order) == all - gone;
  }

  /**
   Batch delete removes exactly the own basket's lines whose ids occur in the list, counts each once
   however often its id is repeated, and lowers the basket's total by what they were worth; no other
   order's total moves.
   */
  lemma BatchDeletesExactly(db: Db, user: Id, b: Id, ids: seq<int>, order: Id)
    requires ValidSales(db.sales) && LinesListed(db.catalog, db.sales) && b in Baskets(db.sales.orders.rows, user) && ids != []
    ensures var infos, lines := db.catalog.infos.rows, db.sales.lines.rows;
      var h, gone := Handle(infos, db.sales, user, BatchDelete(Some(ids))), Named(lines, b, ids);
      && h.response == Response(200, |gone|, map[])
      && h.sales == db.sales.(lines := db.sales.lines.Delete(gone))
      && OrderTotal(db.(sales := h.sales), order) ==
           OrderTotal(db, order) - if order == b then Sum(Worth(infos, lines, gone)) else 0
  {
    TheBasket(db.sales, user, b);
    TotalWithout(db.catalog.infos.rows, db.sales.lines.rows, b, ids, order);
  }

  // ---------- Strings of ids ----------

  predicate IsDigit(c: char) {
    '0' <= c <= '9'
  }

  /** Python's `isdigit` on ASCII text: non-empty and digits only. */
  predicate IsDigits(s: string) {
    s != "" && forall k :: 0 <= k < |s| ==> IsDigit(s[k])
  }

  function Parse(s: string): int
    requires forall k :: 0 <= k < |s| ==> IsDigit(s[k])
  {
    if s == "" then 0 else 10 * Parse(s[..|s|-1]) + (s[|s|-1] as int - '0' as int)
  }

  function Digits(n: nat): string {
    if n < 10 then [('0' as int + n) as char] else Digits(n / 10) + [('0' as int + n % 10) as char]
  }

  function Decimal(n: int): string {
    if n < 0 then "-" + Digits(-n) else Digits(n)
  }

  lemma {:induction false} DigitsParse(n: nat)
    ensures IsDigits(Digits(n)) && Parse(Digits(n)) == n
    decreases n
  {
    if n < 10 {
      assert Digits(n)[..0] == "";
    } else {
      DigitsParse(n / 10);
      assert Digits(n)[..|Digits(n)|-1] == Digits(n / 10);
    }
  }

  lemma DecimalParse(n: int)
    ensures IsDigits(Decimal(n)) <==> 0 <= n
    ensures 0 <= n ==> Parse(Decimal(n)) == n
    ensures ',' !in Decimal(n)
  {
    DigitsParse(if n < 0 then -n else n);
    if n < 0 {
      assert !IsDigit(Decimal(n)[0]);
    }
  }

  /** Python's `','.join` and `split(',')`. */
  function Join(xs: seq<string>): string
    requires xs != []
  {
    if |xs| == 1 then xs[0] else xs[0] + "," + Join(xs[1..])
  }

  function Split(s: string): seq<string>
    decreases |s|
  {
    if s == "" then [""]
    else if s[0] == ',' then [""] + Split(s[1..])
    else
      var rest := Split(s[1..]);
      if rest == [] then [] else [[s[0]] + rest[0]] + rest[1..]
  }

  lemma {:induction false} SplitNoComma(s: string)
    requires ',' !in s
    ensures Split(s) == [s]
    decreases |s|
  {
    if s != "" {
      SplitNoComma(s[1..]);
      assert s == [s[0]] + s[1..];
    }
  }

  lemma {:induction false} SplitAtComma(s: string, t: string)
    requires ',' !in s
    ensures Split(s + "," + t) == [s] + Split(t)
    decreases |s|
  {
    if s == "" {
      assert s + "," + t == "," + t;
      assert ("," + t)[1..] == t;
    } else {
      var u := s + "," + t;
      SplitAtComma(s[1..], t);
      assert u[1..] == s[1..] + "," + t;
      assert s == [s[0]] + s[1..];
    }
  }

  lemma {:induction false} SplitJoin(xs: seq<string>)
    requires xs != [] && forall x :: x in xs ==> ',' !in x
    ensures Split(Join(xs)) == xs
    decreases |xs|
  {
    assert xs[0] in xs;
    if |xs| == 1 {
      SplitNoComma(xs[0]);
    } else {
      assert forall x :: x in xs[1..] ==> x in xs;
      SplitJoin(xs[1..]);
      SplitAtComma(xs[0], Join(xs[1..]));
      assert xs == [xs[0]] + xs[1..];
    }
  }

  // ---------- The reference loop ----------

  /** One OR-ed filter: a line id within an order. */
  datatype Term = Term(order: Id, id: int)

  /** The filters for the digit strings among the items, in order. */
  function Terms(basket: Id, items: seq<string>): seq<Term> {
    if items == [] then []
    else Terms(basket, items[..|items|-1]) +
         if IsDigits(items[|items|-1]) then [Term(basket, Parse(items[|items|-1]))] else []
  }

  ghost predicate Selected(lines: map<Id, Line>, query: seq<Term>, l: Id) {
    l in lines && exists q :: q in query && q.order == lines[l].order && q.id == l
  }

  ghost function Selection(lines: map<Id, Line>, query: seq<Term>): set<Id> {
    set l | l in lines && Selected(lines, query, l)
  }

  lemma {:induction false} TermsOf(basket: Id, items: seq<string>, t: Term)
    ensures t in Terms(basket, items) <==> t.order == basket && exists k :: 0 <= k < |items| && IsDigits(items[k]) && Parse(items[k]) == t.id
    decreases |items|
  {
    if items != [] {
      var m := |items| - 1;
      TermsOf(basket, items[..m], t);
      assert forall k :: 0 <= k < m ==> items[..m][k] == items[k];
    }
  }

  /** One line: selected by the filters of the decimal forms exactly if it is one of the basket's named ones. */
  lemma TermSelects(lines: map<Id, Line>, b: Id, ids: seq<int>, items: seq<string>, l: Id)
    requires |items| == |ids| && forall k :: 0 <= k < |ids| ==> items[k] == Decimal(ids[k])
    requires forall m :: m in lines ==> 0 < m
    ensures l in Selection(lines, Terms(b, items)) <==> l in Named(lines, b, ids)
  {
    var query := Terms(b, items);
    TermsOf(b, items, Term(b, l));
    if l in Selection(lines, query) {
      var q :| q in query && q.order == lines[l].order && q.id == l;
      TermsOf(b, items, q);
      var k :| 0 <= k < |items| && IsDigits(items[k]) && Parse(items[k]) == l;
      DecimalParse(ids[k]);
      assert ids[k] == l;
    }
    if l in Named(lines, b, ids) {
      var k :| 0 <= k < |ids| && ids[k] == l;
      DecimalParse(ids[k]);
      assert items[k] == Decimal(l);
    }
  }

  /** The loop's disjunction selects, for the decimal forms of any ids, the lines that a batch deletes. */
  lemma LoopSelectsBatch(s: Sales, b: Id, ids: seq<int>)
    requires ValidSales(s) && ids != []
    ensures var text := Join(seq(|ids|, k requires 0 <= k < |ids| => Decimal(ids[k])));
      Selection(s.lines.rows, Terms(b, Split(text))) == Named(s.lines.rows, b, ids)
  {
    var items := seq(|ids|, k requires 0 <= k < |ids| => Decimal(ids[k]));
    forall x | x in items ensures ',' !in x {
      var k :| 0 <= k < |items| && items[k] == x;
      DecimalParse(ids[k]);
    }
    SplitJoin(items);
    var lines, query := s.lines.rows, Terms(b, items);
    forall l ensures l in Selection(lines, query) <==> l in Named(lines, b, ids) { TermSelects(lines, b, ids, items, l); }
    SameSet(Selection(lines, query), Named(s.lines.rows, b, ids));
  }

  // ---------- Any text ----------

  /** From i to j the text has no comma, and there is a comma or an end on both sides. */
  ghost predicate PieceAt(s: string, i: int, j: int) {
    && 0 <= i <= j <= |s| && (i == 0 || s[i-1] == ',') && (j == |s| || s[j] == ',')
    && forall k | i <= k < j :: s[k] != ','
  }

  ghost predicate IsPiece(s: string, x: string, i: int) {
    exists j :: PieceAt(s, i, j) && s[i..j] == x
  }

  lemma ShiftPiece(s: string, i: int, j: int)
    requires s != "" && 0 < i
    ensures PieceAt(s, i, j) <==> PieceAt(s[1..], i - 1, j - 1) && (i == 1 ==> s[0] == ',')
    ensures PieceAt(s, i, j) ==> s[i..j] == s[1..][i-1..j-1]
  {
    if PieceAt(s[1..], i - 1, j - 1) {
      assert forall k | i <= k < j :: s[k] == s[1..][k-1];
    }
  }

  lemma ShiftIs(s: string, x: string, i: int)
    requires s != "" && 0 < i
    ensures IsPiece(s, x, i) <==> IsPiece(s[1..], x, i - 1) && (i == 1 ==> s[0] == ',')
  {
    var t, h := s[1..], i - 1;
    if j :| PieceAt(s, i, j) && s[i..j] == x { ShiftPiece(s, i, j); }
    if j :| PieceAt(t, h, j) && t[h..j] == x { ShiftPiece(s, i, j + 1); }
  }

  /** The parts of a split: the first, and those that follow a comma. */
  lemma {:induction false} SplitPieces(s: string)
    ensures Split(s) != [] && IsPiece(s, Split(s)[0], 0)
    ensures forall x :: x in Split(s)[1..] <==> exists i :: 0 < i && IsPiece(s, x, i)
    decreases |s|
  {
    if s == "" {
      assert PieceAt(s, 0, 0);
    } else {
      var t := s[1..];
      SplitPieces(t);
      if s[0] == ',' { assert PieceAt(s, 0, 0) && s[0..0] == ""; } else { FirstPiece(s); }
      forall x ensures x in Split(s)[1..] <==> exists i :: 0 < i && IsPiece(s, x, i) { LaterPieces(s, x); }
    }
  }

  lemma FirstPiece(s: string)
    requires s != "" && s[0] != ',' && Split(s[1..]) != [] && IsPiece(s[1..], Split(s[1..])[0], 0)
    ensures IsPiece(s, Split(s)[0], 0)
  {
    var j :| PieceAt(s[1..], 0, j) && s[1..][0..j] == Split(s[1..])[0];
    forall k | 0 <= k < j + 1 ensures s[k] != ',' { if k > 0 { assert s[k] == s[1..][k-1]; } }
    assert PieceAt(s, 0, j + 1);
    assert s[0..j+1] == [s[0]] + s[1..][0..j];
  }

  lemma UniqueFirst(s: string, x: string, y: string)
    requires IsPiece(s, x, 0) && IsPiece(s, y, 0)
    ensures x == y
  {
    var j :| PieceAt(s, 0, j) && s[0..j] == x;
    var k :| PieceAt(s, 0, k) && s[0..k] == y;
    assert j == k;
  }

  lemma LaterPieces(s: string, x: string)
    requires s != "" && Split(s[1..]) != [] && IsPiece(s[1..], Split(s[1..])[0], 0)
    requires x in Split(s[1..])[1..] <==> exists i :: 0 < i && IsPiece(s[1..], x, i)
    ensures x in Split(s)[1..] <==> exists i :: 0 < i && IsPiece(s, x, i)
  {
    var t := s[1..];
    forall i | 0 < i ensures IsPiece(s, x, i) <==> IsPiece(t, x, i - 1) && (i == 1 ==> s[0] == ',') { ShiftIs(s, x, i); }
    if s[0] == ',' {
      assert Split(s)[1..] == Split(t) == [Split(t)[0]] + Split(t)[1..];
      if x == Split(t)[0] { assert IsPiece(s, x, 1); }
      if i :| 0 < i && IsPiece(t, x, i) { assert IsPiece(s, x, i + 1); }
      if i :| 0 < i && IsPiece(s, x, i) {
        if i == 1 { UniqueFirst(t, x, Split(t)[0]); } else { assert IsPiece(t, x, i - 1); }
      }
    } else {
      assert Split(s)[1..] == Split(t)[1..];
      if i :| 0 < i && IsPiece(t, x, i) { assert IsPiece(s, x, i + 1); }
      if i :| 0 < i && IsPiece(s, x, i) { assert IsPiece(t, x, i - 1); }
    }
  }

  /** The number that digits stand for, read from the left. */
  function Reads(s: string, sofar: int): int {
    if s == "" then sofar else Reads(s[1..], 10 * sofar + (s[0] as int - '0' as int))
  }

  lemma {:induction false} ReadsSnoc(s: string, sofar: int)
    requires s != ""
    ensures Reads(s, sofar) == 10 * Reads(s[..|s|-1], sofar) + (s[|s|-1] as int - '0' as int)
    decreases |s|
  {
    if |s| > 1 {
      ReadsSnoc(s[1..], 10 * sofar + (s[0] as int - '0' as int));
      assert s[..|s|-1][1..] == s[1..][..|s|-2] && s[..|s|-1][0] == s[0];
    }
  }

  lemma {:induction false} ReadsIsParse(s: string)
    requires forall k :: 0 <= k < |s| ==> '0' <= s[k] <= '9'
    ensures (forall k :: 0 <= k < |s| ==> IsDigit(s[k])) && Reads(s, 0) == Parse(s)
    decreases |s|
  {
    if s != "" {
      ReadsSnoc(s, 0);
      ReadsIsParse(s[..|s|-1]);
    }
  }

  /** Some non-empty run of digits between commas or ends stands for this number. */
  ghost predicate Spells(items: string, id: int) {
    exists i, j :: PieceAt(items, i, j) && i < j && (forall k | i <= k < j :: '0' <= items[k] <= '9') && Reads(items[i..j], 0) == id
  }

  lemma PieceIsPart(s: string, x: string, i: int)
    requires 0 <= i && IsPiece(s, x, i)
    ensures x in Split(s)
  {
    SplitPieces(s);
    if i == 0 { UniqueFirst(s, x, Split(s)[0]); } else { assert x in Split(s)[1..]; }
  }

  lemma PartIsPiece(s: string, x: string) returns (i: int, j: int)
    requires x in Split(s)
    ensures PieceAt(s, i, j) && s[i..j] == x
  {
    SplitPieces(s);
    i := 0;
    if x != Split(s)[0] {
      assert Split(s) == [Split(s)[0]] + Split(s)[1..];
      assert x in Split(s)[1..];
      i :| 0 < i && IsPiece(s, x, i);
    }
    j :| PieceAt(s, i, j) && s[i..j] == x;
  }

  lemma PieceSpells(items: string, id: int)
    ensures Spells(items, id) <==> exists x :: x in Split(items) && IsDigits(x) && Parse(x) == id
  {
    if i, j :| PieceAt(items, i, j) && i < j && (forall k | i <= k < j :: '0' <= items[k] <= '9') && Reads(items[i..j], 0) == id {
      ReadsIsParse(items[i..j]);
      assert IsPiece(items, items[i..j], i);
      PieceIsPart(items, items[i..j], i);
      assert IsDigits(items[i..j]);
    }
    if x :| x in Split(items) && IsDigits(x) && Parse(x) == id {
      var i, j := PartIsPiece(items, x);
      DigitsSpell(items, i, j, id);
    }
  }

  lemma DigitsSpell(items: string, i: int, j: int, id: int)
    requires PieceAt(items, i, j) && IsDigits(items[i..j]) && Parse(items[i..j]) == id
    ensures Spells(items, id)
  {
    var x := items[i..j];
    forall k | 0 <= k < |x| ensures '0' <= x[k] <= '9' { assert IsDigit(x[k]); }
    ReadsIsParse(x);
    forall k | i <= k < j ensures '0' <= items[k] <= '9' { assert items[k] == x[k-i]; }
  }

  /**
   For any text at all: the reference loop selects the basket's lines whose ids the digits between its
   commas stand for, leading zeros and repetitions included; every other part is passed over.
   */
  lemma LoopSelectsExactly(lines: map<Id, Line>, b: Id, items: string, l: Id)
    ensures l in Selection(lines, Terms(b, Split(items))) <==> l in lines && lines[l].order == b && Spells(items, l)
  {
    var query := Terms(b, Split(items));
    TermsOf(b, Split(items), Term(b, l));
    PieceSpells(items, l);
    if Spells(items, l) {
      var x :| x in Split(items) && IsDigits(x) && Parse(x) == l;
      var k :| 0 <= k < |Split(items)| && Split(items)[k] == x;
    }
    if l in Selection(lines, query) {
      var q :| q in query && q.order == lines[l].order && q.id == l;
      TermsOf(b, Split(items), q);
    }
  }
}
