/** Small vocabulary shared by every component model. */
module Prelude {

  datatype Option<+T> = None | Some(value: T)

  datatype Result<+T, +E> = Ok(value: T) | Err(error: E)

  /** A UTF-16 code unit; surrogates are ordinary units. */
  type Unit = u: int | 0 <= u < 0x1_0000

  type Text = seq<Unit>

  function Word(s: string): (t: Text)
    requires forall i :: 0 <= i < |s| ==> s[i] as int < 0x1_0000
    ensures |t| == |s| && forall i :: 0 <= i < |s| ==> t[i] == s[i] as int
  {
    seq(|s|, i requires 0 <= i < |s| => s[i] as int)
  }

  function Min(a: int, b: int): int {
    if a <= b then a else b
  }

  function Max(a: int, b: int): int {
    if a >= b then a else b
  }

  /** The concatenation of a list of sequences, in order. */
  function Flatten<T>(parts: seq<seq<T>>): seq<T> {
    if parts == [] then [] else parts[0] + Flatten(parts[1..])
  }

  lemma {:induction false} FlattenAppend<T>(a: seq<seq<T>>, b: seq<seq<T>>)
    ensures Flatten(a + b) == Flatten(a) + Flatten(b)
  {
    if a == [] {
      assert a + b == b;
    } else {
      assert (a + b)[1..] == a[1..] + b;
      FlattenAppend(a[1..], b);
    }
  }

  lemma SliceOfRest<T>(s: seq<T>, a: nat, b: nat)
    requires a <= b <= |s|
    ensures s[a..][..b - a] == s[a..b]
  {
  }

  lemma SliceSnoc<T>(s: seq<T>, a: nat, b: nat)
    requires a <= b < |s|
    ensures s[a..b + 1] == s[a..b] + [s[b]]
  {
  }

  /** Run `f` over the elements of `es` from left to right; the element at k has index start + k. */
  function Fold<S, E>(s: S, f: (S, E, nat) -> S, es: seq<E>, start: nat): S {
    if es == [] then s
    else
      var last := |es| - 1;
      f(Fold(s, f, es[..last], start), es[last], start + last)
  }

  lemma {:induction false} FoldSnoc<S, E>(s: S, f: (S, E, nat) -> S, es: seq<E>, e: E, start: nat)
    ensures Fold(s, f, es + [e], start) == f(Fold(s, f, es, start), e, start + |es|)
  {
    assert (es + [e])[..|es|] == es;
  }

  /** `e` is the element with index j. */
  ghost predicate At<E>(es: seq<E>, start: nat, j: nat, e: E) {
    start <= j < start + |es| && es[j - start] == e
  }

  /** `inv(v, j)` says what holds when the elements below index j are done; every step keeps it. */
  ghost predicate Preserves<S(!new), E(!new)>(f: (S, E, nat) -> S, es: seq<E>, start: nat, inv: (S, nat) -> bool) {
    forall v: S, e: E, j: nat {:trigger inv(v, j), At(es, start, j, e)} ::
      At(es, start, j, e) && inv(v, j) ==> inv(f(v, e, j), j + 1)
  }

  lemma {:induction false} FoldInduction<S(!new), E(!new)>(s: S, f: (S, E, nat) -> S, es: seq<E>, start: nat, inv: (S, nat) -> bool)
    requires inv(s, start) && Preserves(f, es, start, inv)
    ensures inv(Fold(s, f, es, start), start + |es|)
    decreases |es|
  {
    if es != [] {
      var last := |es| - 1;
      assert Preserves(f, es[..last], start, inv) by {
        forall v: S, e: E, j: nat | At(es[..last], start, j, e) && inv(v, j) ensures inv(f(v, e, j), j + 1) {
          assert At(es, start, j, e);
        }
      }
      FoldInduction(s, f, es[..last], start, inv);
      assert At(es, start, start + last, es[last]);
    }
  }

  /** A fold whose steps commute with a projection commutes with it as a whole. */
  lemma {:induction false} FoldProjects<A(!new), B, E(!new)>(
      a: A, f: (A, E, nat) -> A, g: (B, E, nat) -> B, proj: A -> B, es: seq<E>, start: nat)
    requires forall x: A, e: E, j: nat :: proj(f(x, e, j)) == g(proj(x), e, j)
    ensures proj(Fold(a, f, es, start)) == Fold(proj(a), g, es, start)
    decreases |es|
  {
    if es != [] {
      FoldProjects(a, f, g, proj, es[..|es| - 1], start);
    }
  }

  // ------------------------------------------------------------------
  // Stable sorting
  // ------------------------------------------------------------------

  /** Put `x`, which stood before all of `sorted`, in its place; it stays before its equals. */
  function InsertBy<T>(x: T, sorted: seq<T>, before: (T, T) -> bool): seq<T> {
    if sorted == [] || !before(sorted[0], x) then [x] + sorted else [sorted[0]] + InsertBy(x, sorted[1..], before)
  }

  function SortBy<T>(es: seq<T>, before: (T, T) -> bool): seq<T> {
    if es == [] then [] else InsertBy(es[0], SortBy(es[1..], before), before)
  }

  /** `before` is a strict order up to ties. */
  ghost predicate Ranks<T(!new)>(before: (T, T) -> bool) {
    && (forall x, y :: !(before(x, y) && before(y, x)))
    && (forall x, y, z :: !before(y, x) && !before(z, y) ==> !before(z, x))
  }

  /** Nothing stands behind what it should stand before. */
  ghost predicate InOrder<T(!new)>(es: seq<T>, before: (T, T) -> bool) {
    es == [] || ((forall y :: y in es[1..] ==> !before(y, es[0])) && InOrder(es[1..], before))
  }

  function Filter<T>(es: seq<T>, p: T -> bool): seq<T> {
    if es == [] then [] else (if p(es[0]) then [es[0]] else []) + Filter(es[1..], p)
  }

  lemma {:induction false} FilterCons<T>(x: T, es: seq<T>, p: T -> bool)
    ensures Filter([x] + es, p) == (if p(x) then [x] else []) + Filter(es, p)
  {
    assert ([x] + es)[1..] == es;
  }

  lemma {:induction false} InsertByHas<T>(x: T, es: seq<T>, before: (T, T) -> bool, y: T)
    ensures y in InsertBy(x, es, before) <==> y == x || y in es
    ensures |InsertBy(x, es, before)| == 1 + |es|
    decreases |es|
  {
    assert y in [x] + es <==> y == x || y in es;
    if es != [] {
      var rest := InsertBy(x, es[1..], before);
      InsertByHas(x, es[1..], before, y);
      assert y in [es[0]] + rest <==> y == es[0] || y in rest;
      assert y in es <==> y == es[0] || y in es[1..];
    }
  }

  /** Sorting only rearranges. */
  lemma {:induction false} SortByHas<T>(es: seq<T>, before: (T, T) -> bool, y: T)
    ensures y in SortBy(es, before) <==> y in es
    ensures |SortBy(es, before)| == |es|
    decreases |es|
  {
    if es != [] {
      SortByHas(es[1..], before, y);
      InsertByHas(es[0], SortBy(es[1..], before), before, y);
      assert y in es <==> y == es[0] || y in es[1..];
    }
  }

  lemma {:induction false} InsertByOrders<T(!new)>(x: T, es: seq<T>, before: (T, T) -> bool)
    requires Ranks(before) && InOrder(es, before)
    ensures InOrder(InsertBy(x, es, before), before)
    decreases |es|
  {
    if es == [] || !before(es[0], x) {
      assert ([x] + es)[1..] == es;
      assert forall y :: y in es ==> es == [es[0]] + es[1..] && (y == es[0] || y in es[1..]);
    } else {
      var rest := InsertBy(x, es[1..], before);
      InsertByOrders(x, es[1..], before);
      assert ([es[0]] + rest)[1..] == rest;
      forall y | y in rest ensures !before(y, es[0]) {
        InsertByHas(x, es[1..], before, y);
      }
    }
  }

  lemma {:induction false} SortByOrders<T(!new)>(es: seq<T>, before: (T, T) -> bool)
    requires Ranks(before)
    ensures InOrder(SortBy(es, before), before)
    decreases |es|
  {
    if es != [] {
      SortByOrders(es[1..], before);
      InsertByOrders(es[0], SortBy(es[1..], before), before);
    }
  }

  lemma {:induction false} InOrderPairs<T(!new)>(es: seq<T>, before: (T, T) -> bool, i: nat, j: nat)
    requires InOrder(es, before) && i < j < |es|
    ensures !before(es[j], es[i])
    decreases i
  {
    if i == 0 {
      assert es[j] == es[1..][j - 1];
    } else {
      InOrderPairs(es[1..], before, i - 1, j - 1);
    }
  }

  lemma {:induction false} InsertByIsStable<T(!new)>(x: T, es: seq<T>, before: (T, T) -> bool, p: T -> bool)
    requires forall y, z :: p(y) && p(z) ==> !before(y, z)
    ensures Filter(InsertBy(x, es, before), p) == (if p(x) then [x] else []) + Filter(es, p)
    decreases |es|
  {
    FilterCons(x, es, p);
    if es != [] && before(es[0], x) {
      var rest := InsertBy(x, es[1..], before);
      InsertByIsStable(x, es[1..], before, p);
      FilterCons(es[0], rest, p);
    }
  }

  /** Elements of a class within which nothing stands before anything keep their order. */
  lemma {:induction false} SortByIsStable<T(!new)>(es: seq<T>, before: (T, T) -> bool, p: T -> bool)
    requires forall y, z :: p(y) && p(z) ==> !before(y, z)
    ensures Filter(SortBy(es, before), p) == Filter(es, p)
    decreases |es|
  {
    if es != [] {
      SortByIsStable(es[1..], before, p);
      InsertByIsStable(es[0], SortBy(es[1..], before), before, p);
    }
  }
}
