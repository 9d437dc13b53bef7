/** Small shared vocabulary: optional values, fields of parsed mappings, row lookups and tables. */
module Prelude {

  type Id = int

  datatype Option<+T> = None | Some(value: T)

  /** What a parsed YAML or JSON mapping holds under one key. */
  datatype Field<+T> = Missing | Null | Given(value: T) {
    /** Python's `mapping.get(key)`: an absent key and an explicit null look alike. */
    function Get(): Option<T> {
      match this
      case Given(v) => Some(v)
      case _ => None
    }

    /** Python's `mapping.get(key, default)`: only an absent key yields the default. */
    function GetOr(default: T): Option<T> {
      match this
      case Missing => Some(default)
      case Null => None
      case Given(v) => Some(v)
    }
  }

  /** The outcome of fetching "the" row that matches a filter. */
  datatype Found<+T> = NotFound | One(id: T) | Multiple

  /** Some element of a non-empty set. */
  ghost function Any<T>(s: set<T>): (x: T)
    requires s != {}
    ensures x in s
  {
    var x :| x in s; x
  }

  lemma Singleton(s: set<Id>, x: Id)
    requires x in s && forall y :: y in s ==> y == x
    ensures s == {x}
  {
    assert forall y :: y in s ==> y == x;
    assert s == {x};
  }

  lemma SameSet(s: set<Id>, t: set<Id>)
    requires forall y :: y in s <==> y in t
    ensures s == t
  {
    assert forall y :: y in s <==> y in t;
    assert s == t;
  }

  lemma Nothing(s: set<Id>)
    requires forall y :: y !in s
    ensures s == {}
  {
    assert forall y :: y !in s;
    assert s == {};
  }

  ghost function Lookup<T(!new)>(matching: set<T>): (r: Found<T>)
    ensures r.NotFound? <==> matching == {}
    ensures r.One? ==> matching == {r.id}
    ensures r.Multiple? ==> exists i, j :: i in matching && j in matching && i != j
    ensures forall i :: matching == {i} ==> r == One(i)
  {
    if matching == {} then NotFound
    else
      var i := Any(matching);
      if matching == {i} then One(i)
      else
        assert matching - {i} != {};
        var j := Any(matching - {i});
        assert j in matching && i != j;
        Multiple
  }

  lemma Ambiguous<T(!new)>(s: set<T>) returns (i: T, j: T)
    requires Lookup(s).Multiple?
    ensures i in s && j in s && i != j
  {
    i, j :| i in s && j in s && i != j;
  }

  /** Rows keyed by an identifier that the database hands out and never reuses. */
  datatype Table<T> = Table(rows: map<Id, T>, next: Id) {
    function Insert(row: T): Table<T> {
      Table(rows[next := row], next + 1)
    }

    /** Insertion under an identifier chosen by the caller; the generator skips past it. */
    function InsertAt(id: Id, row: T): Table<T> {
      Table(rows[id := row], if id < next then next else id + 1)
    }

    function Update(id: Id, row: T): Table<T> {
      Table(rows[id := row], next)
    }

    function Delete(ids: set<Id>): Table<T> {
      Table(rows - ids, next)
    }

    ghost predicate Fresh() {
      && 0 < next
      && forall i :: i in rows ==> i < next
    }
  }

  function EmptyTable<T>(): Table<T> {
    Table(map[], 1)
  }
}
