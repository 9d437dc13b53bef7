/**
 An unwinding argument for any transition system: if events of some kind cannot be noticed, and all
 other events can be mirrored with the same answer, then the former can be removed from every run.
 */
module Unwinding {

  ghost function Fold<S, E>(next: (S, E) -> S, s: S, es: seq<E>): S
    decreases |es|
  {
    if es == [] then s else Fold(next, next(s, es[0]), es[1..])
  }

  ghost function Heard<S, E, R>(next: (S, E) -> S, answer: (S, E) -> R, own: E -> bool, s: S, es: seq<E>): seq<R>
    decreases |es|
  {
    if es == [] then []
    else (if own(es[0]) then [answer(s, es[0])] else []) + Heard(next, answer, own, next(s, es[0]), es[1..])
  }

  /** The second run: removable events dropped, the others mirrored. */
  ghost function Kept<S, E>(next: (S, E) -> S, removable: E -> bool, mirror: (S, S, E) -> E, a: S, b: S, es: seq<E>): seq<E>
    decreases |es|
  {
    if es == [] then []
    else if removable(es[0]) then Kept(next, removable, mirror, next(a, es[0]), b, es[1..])
    else
      var f := mirror(a, b, es[0]);
      [f] + Kept(next, removable, mirror, next(a, es[0]), next(b, f), es[1..])
  }

  /** Removable events keep a pair good; the others can be mirrored with the same answer. */
  ghost predicate Mirrors<S(!new), E(!new), R(!new)>(
      next: (S, E) -> S, answer: (S, E) -> R, own: E -> bool, removable: E -> bool, mirror: (S, S, E) -> E, good: (S, S) -> bool) {
    && (forall e :: removable(e) ==> !own(e))
    && (forall s, t, e :: good(s, t) && removable(e) ==> good(next(s, e), t))
    && (forall s, t, e | good(s, t) && !removable(e) ::
          good(next(s, e), next(t, mirror(s, t, e))) && !removable(mirror(s, t, e)))
    && (forall s, t, e | good(s, t) && !removable(e) ::
          (own(mirror(s, t, e)) <==> own(e)) && (own(e) ==> answer(s, e) == answer(t, mirror(s, t, e))))
  }

  lemma {:induction false} Unwind<S(!new), E(!new), R(!new)>(
      next: (S, E) -> S, answer: (S, E) -> R, own: E -> bool, removable: E -> bool, mirror: (S, S, E) -> E,
      good: (S, S) -> bool, a: S, b: S, es: seq<E>)
    requires Mirrors(next, answer, own, removable, mirror, good)
    requires good(a, b)
    ensures var fs := Kept(next, removable, mirror, a, b, es);
      && Heard(next, answer, own, a, es) == Heard(next, answer, own, b, fs)
      && good(Fold(next, a, es), Fold(next, b, fs))
      && forall f :: f in fs ==> !removable(f)
    decreases |es|
  {
    if es != [] {
      var e, rest := es[0], es[1..];
      if removable(e) {
        Unwind(next, answer, own, removable, mirror, good, next(a, e), b, rest);
      } else {
        var f := mirror(a, b, e);
        Unwind(next, answer, own, removable, mirror, good, next(a, e), next(b, f), rest);
        var fs := Kept(next, removable, mirror, next(a, e), next(b, f), rest);
        assert ([f] + fs)[0] == f && ([f] + fs)[1..] == fs;
      }
    }
  }
}
