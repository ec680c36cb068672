/** Types and small queries shared by the other modules. */
module Basics {

  newtype byte = x: int | 0 <= x < 256

  type Bytes = seq<byte>

  datatype Option<+T> = None | Some(value: T)

  datatype Result<+T, +E> = Ok(value: T) | Err(error: E)

  function Min(a: int, b: int): (m: int)
    ensures m <= a && m <= b && (m == a || m == b)
  {
    if a < b then a else b
  }

  ghost predicate TotalPreorder<T(!new)>(leq: (T, T) -> bool) {
    && (forall a, b :: leq(a, b) || leq(b, a))
    && (forall a, b, c :: leq(a, b) && leq(b, c) ==> leq(a, c))
  }

  predicate Distinct<T(==)>(s: seq<T>) {
    forall i, j | 0 <= i < j < |s| :: s[i] != s[j]
  }

  function ToSet<T(==)>(s: seq<T>): set<T> {
    set x | x in s
  }

  lemma ToSetNext<T>(s: seq<T>, n: nat)
    requires n < |s|
    ensures ToSet(s[..n + 1]) == ToSet(s[..n]) + {s[n]}
  {
    assert s[..n + 1] == s[..n] + [s[n]];
  }

  /** out is what `ORDER BY leq LIMIT limit` returns from the rows of pool. */
  ghost predicate FirstRows<T>(pool: set<T>, leq: (T, T) -> bool, limit: nat, out: seq<T>) {
    && Distinct(out)
    && |out| == Min(limit, |pool|)
    && (forall x | x in out :: x in pool)
    && (forall i, e | 0 <= i < |out| && e in pool && e !in out[..i] :: leq(out[i], e))
  }

  /** A least element of a non-empty set. */
  method Least<T(==, !new)>(pool: set<T>, leq: (T, T) -> bool) returns (least: T)
    requires pool != {} && TotalPreorder(leq)
    ensures least in pool && forall e | e in pool :: leq(least, e)
  {
    least :| least in pool;
    var rest := pool - {least};
    while rest != {}
      invariant least in pool && rest <= pool
      invariant forall e | e in pool && e !in rest :: leq(least, e)
      decreases |rest|
    {
      var x :| x in rest;
      if !leq(least, x) {
        least := x;
      }
      rest := rest - {x};
    }
  }

  /** Moving one element from one part of a set to the other. */
  lemma MoveOne<T>(all: set<T>, todo: set<T>, seen: set<T>, x: T)
    requires todo + seen == all && todo !! seen && x in todo
    ensures (todo - {x}) + (seen + {x}) == all && (todo - {x}) !! (seen + {x})
  {
  }

  lemma SubsetCount<T>(a: set<T>, b: set<T>)
    requires a <= b
    ensures |b - a| == |b| - |a|
  {
    assert b == a + (b - a);
  }

  lemma {:induction false} DistinctCount<T>(s: seq<T>, pool: set<T>)
    requires Distinct(s) && forall x | x in s :: x in pool
    ensures |s| <= |pool| && |set x | x in s| == |s|
  {
    var members := set x | x in s;
    if |s| > 0 {
      var front, last := s[..|s| - 1], s[|s| - 1];
      assert last !in front;
      DistinctCount(front, pool - {last});
      assert s == front + [last];
      assert members == (set x | x in front) + {last};
    }
    assert members <= pool;
    SubsetCount(members, pool);
  }

  /** Evaluates `ORDER BY leq LIMIT limit` by repeatedly taking a least remaining row. */
  method Query<T(==, !new)>(pool: set<T>, leq: (T, T) -> bool, limit: nat) returns (out: seq<T>)
    requires TotalPreorder(leq)
    ensures FirstRows(pool, leq, limit, out)
  {
    out := [];
    var rest := pool;
    while rest != {} && |out| < limit
      invariant Distinct(out) && |out| <= limit && |out| + |rest| == |pool|
      invariant forall x :: x in pool <==> x in rest || x in out
      invariant forall x | x in out :: x !in rest
      invariant forall i, e | 0 <= i < |out| && e in pool && e !in out[..i] :: leq(out[i], e)
      decreases |rest|
    {
      var x := Least(rest, leq);
      out, rest := out + [x], rest - {x};
    }
  }

  /** Evaluates `LIMIT limit` without an order: some rows, as many as there are up to the limit. */
  method Batch<T(==)>(pool: set<T>, limit: nat) returns (batch: set<T>)
    ensures batch <= pool && |batch| == Min(limit, |pool|)
    ensures |pool - batch| == |pool| - |batch|
    ensures |batch| < limit ==> batch == pool
  {
    batch := {};
    var rest := pool;
    while rest != {} && |batch| < limit
      invariant batch + rest == pool && batch !! rest && |batch| <= limit
      decreases |rest|
    {
      var x :| x in rest;
      batch, rest := batch + {x}, rest - {x};
    }
    SubsetCount(batch, pool);
    assert pool - batch == rest;
  }
}
