/** Values shared by every module: results, exception classes, and sorting a finite set. */
module Basics {

  datatype Option<+T> = None | Some(value: T)

  /** The exception class a call raises; message texts are not modelled. */
  datatype Exc =
    | ReadViewError | GpuKvError | AttnViewConfigError | UnsupportedConfig
    | ValueError | OracleError | ReferenceError | RuntimeError | SpanMappingError | AssertionError

  datatype Result<+T> = Ok(value: T) | Err(error: Exc)

  // ---------------------------------------------------------------------------
  // sorted(set(..))
  // ---------------------------------------------------------------------------

  ghost predicate StrictTotal<T(!new)>(lt: (T, T) -> bool) {
    && (forall a :: !lt(a, a))
    && (forall a, b :: a != b ==> lt(a, b) || lt(b, a))
    && (forall a, b, c :: lt(a, b) && lt(b, c) ==> lt(a, c))
  }

  ghost predicate AscendingBy<T(!new)>(xs: seq<T>, lt: (T, T) -> bool) {
    forall i, j :: 0 <= i < j < |xs| ==> lt(xs[i], xs[j])
  }

  lemma Minimum<T(!new)>(s: set<T>, lt: (T, T) -> bool) returns (m: T)
    requires StrictTotal(lt) && s != {}
    ensures m in s && forall x :: x in s ==> x == m || lt(m, x)
  {
    var first :| first in s;
    var rest := s - {first};
    if rest == {} {
      m := first;
      assert s == {first};
    } else {
      var n := Minimum(rest, lt);
      m := if lt(first, n) then first else n;
      forall x | x in s ensures x == m || lt(m, x) {
        if x != first { assert x in rest; }
      }
    }
  }

  /** The elements of a finite set in ascending order, each once. */
  function Sorted<T(==, !new)>(s: set<T>, lt: (T, T) -> bool): (r: seq<T>)
    requires StrictTotal(lt)
    ensures AscendingBy(r, lt)
    ensures forall x :: x in r <==> x in s
    ensures |r| == |s|
    decreases |s|
  {
    if s == {} then []
    else
      assert exists m :: m in s && forall x :: x in s ==> x == m || lt(m, x) by { var _ := Minimum(s, lt); }
      var m :| m in s && forall x :: x in s ==> x == m || lt(m, x);
      [m] + Sorted(s - {m}, lt)
  }

  predicate IntLess(a: int, b: int) { a < b }

  ghost predicate Ascending(xs: seq<int>) {
    forall i, j :: 0 <= i < j < |xs| ==> xs[i] < xs[j]
  }

  function SortedInts(s: set<int>): (r: seq<int>)
    ensures Ascending(r)
    ensures forall x :: x in r <==> x in s
    ensures |r| == |s|
  {
    Sorted(s, IntLess)
  }

  lemma Member(xs: seq<int>) returns (x: int)
    requires xs != []
    ensures x in xs
  {
    x := xs[0];
  }

  /** A strictly ascending list is determined by its elements. */
  lemma {:induction false} AscendingUnique(a: seq<int>, b: seq<int>)
    requires Ascending(a) && Ascending(b)
    requires forall x :: x in a <==> x in b
    ensures a == b
  {
    if a == [] {
      if b != [] { var _ := Member(b); }
    } else if b == [] {
      var _ := Member(a);
    } else {
      assert a[0] in b && b[0] in a;
      assert a[0] == b[0];
      forall x ensures x in a[1..] <==> x in b[1..] {
        if x in a[1..] { assert x in a && x != a[0]; }
        if x in b[1..] { assert x in b && x != b[0]; }
      }
      AscendingUnique(a[1..], b[1..]);
      assert a == [a[0]] + a[1..] && b == [b[0]] + b[1..];
    }
  }

  /** Being strictly ascending and listing a set pins the list. */
  lemma ListsSet(xs: seq<int>, s: set<int>)
    requires Ascending(xs) && forall x :: x in xs <==> x in s
    ensures xs == SortedInts(s)
  {
    AscendingUnique(xs, SortedInts(s));
  }

  function Max(a: int, b: int): int { if a < b then b else a }

  function Min(a: int, b: int): int { if a < b then a else b }

  // ---------------------------------------------------------------------------
  // Block arithmetic (positive block size, so // and divmod are Euclidean)
  // ---------------------------------------------------------------------------

  /** -(-n // b) */
  function CeilDiv(n: int, b: int): int
    requires b > 0
  {
    -((-n) / b)
  }

  lemma MulStep(x: int, y: int, b: int)
    requires b > 0 && x < y
    ensures x * b + b <= y * b
  {
    assert y * b == x * b + b + (y - x - 1) * b;
  }

  lemma Quotient(j: int, n: int, b: int)
    requires b > 0 && 0 <= j < n * b
    ensures 0 <= j / b < n
  {
    DivBounds(j, b);
    if j / b < 0 { MulStep(j / b, 0, b); }
    if n < j / b { MulStep(n, j / b, b); }
  }

  lemma CeilDivBounds(n: int, b: int)
    requires b > 0
    ensures CeilDiv(n, b) * b - b < n <= CeilDiv(n, b) * b
  {
  }

  lemma CeilDivUnique(n: int, b: int, q: int)
    requires b > 0 && q * b - b < n <= q * b
    ensures CeilDiv(n, b) == q
  {
    CeilDivBounds(n, b);
    var c := CeilDiv(n, b);
    if c < q { MulStep(c, q, b); }
    if q < c { MulStep(q, c, b); }
  }

  lemma DivBounds(p: int, b: int)
    requires b > 0
    ensures p == (p / b) * b + p % b && 0 <= p % b < b
  {
  }

  lemma DivUnique(p: int, b: int, k: int)
    requires b > 0 && k * b <= p < k * b + b
    ensures p / b == k && p % b == p - k * b
  {
    DivBounds(p, b);
    if k < p / b { MulStep(k, p / b, b); }
    if p / b < k { MulStep(p / b, k, b); }
  }

  lemma DivMonotone(p: int, q: int, b: int)
    requires b > 0 && p <= q
    ensures p / b <= q / b
  {
    DivBounds(p, b);
    DivBounds(q, b);
    if q / b < p / b { MulStep(q / b, p / b, b); }
  }
}
