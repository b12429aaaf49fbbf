/** Small shared vocabulary: optional values, bounded queries and counting. */
module Basics {

  /** A nullable column or an optional result. */
  datatype Option<+T> = None | Some(value: T) {
    function GetOr(default: T): T {
      match this
      case Some(v) => v
      case None => default
    }
  }

  function Min(a: int, b: int): int {
    if a <= b then a else b
  }

  function Max(a: int, b: int): int {
    if a <= b then b else a
  }

  predicate Distinct<T(==)>(s: seq<T>) {
    forall i, k :: 0 <= i < k < |s| ==> s[i] != s[k]
  }

  lemma ConcatAssociates<T>(x: seq<T>, y: seq<T>, z: seq<T>)
    ensures x + (y + z) == (x + y) + z
  {
  }

  /** An injection from `a` into `b` bounds the size of `a`. */
  lemma {:induction false} InjectionBound(a: set<nat>, b: set<nat>, f: nat -> nat)
    requires forall x :: x in a ==> f(x) in b
    requires forall x, y :: x in a && y in a && f(x) == f(y) ==> x == y
    ensures |a| <= |b|
  {
    if a != {} {
      var x :| x in a;
      InjectionBound(a - {x}, b - {f(x)}, f);
    }
  }

  lemma {:induction false} SubsetSize<T>(a: set<T>, b: set<T>)
    requires a <= b
    ensures |a| <= |b|
    ensures |a| == |b| ==> a == b
  {
    if a != {} {
      var x :| x in a;
      SubsetSize(a - {x}, b - {x});
    }
  }

  /** `leq` orders the rows of a query: reflexive, transitive, total. */
  ghost predicate RanksRows(all: set<nat>, leq: (nat, nat) -> bool) {
    && (forall x :: x in all ==> leq(x, x))
    && (forall x, y :: x in all && y in all ==> leq(x, y) || leq(y, x))
    && (forall x, y, z :: x in all && y in all && z in all && leq(x, y) && leq(y, z) ==> leq(x, z))
  }

  /** `s` is a possible answer of SELECT .. FROM all ORDER BY leq LIMIT limit.
      Rows that tie under `leq` may come in any order. */
  ghost predicate IsLimitedQuery(s: seq<nat>, all: set<nat>, limit: nat, leq: (nat, nat) -> bool) {
    && Distinct(s)
    && (forall x :: x in s ==> x in all)
    && (forall i, k :: 0 <= i < k < |s| ==> leq(s[i], s[k]))
    && |s| == Min(limit, |all|)
    && (forall x, y :: x in all && x !in s && y in s ==> leq(y, x))
  }

  /** The row that no other row precedes. */
  method FirstRow(rows: set<nat>, leq: (nat, nat) -> bool) returns (best: nat)
    requires rows != {} && RanksRows(rows, leq)
    ensures best in rows && forall x :: x in rows ==> leq(best, x)
  {
    best :| best in rows;
    var left := rows - {best};
    while left != {}
      invariant left <= rows && best in rows
      invariant forall x :: x in rows && x !in left ==> leq(best, x)
      decreases |left|
    {
      var x :| x in left;
      if !leq(best, x) {
        best := x;
      }
      left := left - {x};
    }
  }

  /** Answers a sorted, limited query by repeatedly taking the first remaining row. */
  method LimitedQuery(all: set<nat>, limit: nat, leq: (nat, nat) -> bool) returns (s: seq<nat>)
    requires RanksRows(all, leq)
    ensures IsLimitedQuery(s, all, limit, leq)
  {
    s := [];
    var left := all;
    while left != {} && |s| < limit
      invariant left <= all && forall x :: x in all <==> x in left || x in s
      invariant forall x :: x in s ==> x !in left
      invariant |s| + |left| == |all| && |s| <= limit
      invariant Distinct(s)
      invariant forall x, y :: x in s && y in left ==> leq(x, y)
      invariant forall i, k :: 0 <= i < k < |s| ==> leq(s[i], s[k])
      decreases |left|
    {
      var best := FirstRow(left, leq);
      s := s + [best];
      left := left - {best};
    }
  }

  function Elements(s: seq<nat>): set<nat> {
    set x: nat | x in s
  }

  lemma {:induction false} DistinctSize(s: seq<nat>)
    requires Distinct(s)
    ensures |Elements(s)| == |s|
  {
    if s != [] {
      var n := |s| - 1;
      DistinctSize(s[..n]);
      assert Elements(s) == Elements(s[..n]) + {s[n]};
      assert s[n] !in s[..n];
    }
  }
}
