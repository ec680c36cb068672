/** Durable invalidation counters of the response cache. A namespace (scope, kind) is stamped
    with the saturated sum of three counters and one global counter. */
module Generations {
  import opened Basics

  const UINT64_MAX: nat := 0xFFFF_FFFF_FFFF_FFFF
  const INT64_MAX: nat := 0x7FFF_FFFF_FFFF_FFFF

  /** The in-memory store joins scope and class with a NUL; the table keeps them apart. */
  datatype ClassName = Pair(scope: string, kind: string) | Joined(key: string)

  datatype Counter = OfScope(scope: string) | OfClass(name: ClassName) | OfServerClass(kind: string) | Global

  datatype Namespace = Namespace(scope: string, name: ClassName, kind: string)

  datatype Stamp = Stamp(scopeGen: nat, globalGen: nat)

  predicate Covers(b: Counter, n: Namespace) {
    b == OfScope(n.scope) || b == OfClass(n.name) || b == OfServerClass(n.kind) || b == Global
  }

  ghost predicate Untouched(bumps: seq<Counter>, n: Namespace) {
    forall b | b in bumps :: !Covers(b, n)
  }

  function Saturate(n: nat): nat {
    if n <= UINT64_MAX then n else UINT64_MAX
  }

  ghost function Count(bumps: seq<Counter>, b: Counter): nat {
    if bumps == [] then 0
    else Count(bumps[..|bumps| - 1], b) + if bumps[|bumps| - 1] == b then 1 else 0
  }

  lemma {:induction false} CountAppend(bumps: seq<Counter>, more: seq<Counter>, b: Counter)
    ensures Count(bumps + more, b) == Count(bumps, b) + Count(more, b)
  {
    if more == [] {
      assert bumps + more == bumps;
    } else {
      var n := |more| - 1;
      CountAppend(bumps, more[..n], b);
      assert (bumps + more)[..|bumps| + n] == bumps + more[..n];
    }
  }

  lemma {:induction false} CountPositive(bumps: seq<Counter>, b: Counter)
    ensures Count(bumps, b) <= |bumps|
    ensures Count(bumps, b) > 0 <==> b in bumps
  {
    if bumps != [] {
      var n := |bumps| - 1;
      CountPositive(bumps[..n], b);
      assert bumps == bumps[..n] + [bumps[n]];
    }
  }

  lemma CountNext(bumps: seq<Counter>, x: Counter, b: Counter)
    ensures Count(bumps + [x], b) == Count(bumps, b) + if x == b then 1 else 0
  {
    assert (bumps + [x])[..|bumps|] == bumps;
  }

  /** How often a namespace has been bumped other than globally. */
  ghost function Generation(bumps: seq<Counter>, n: Namespace): nat {
    Count(bumps, OfScope(n.scope)) + Count(bumps, OfClass(n.name)) + Count(bumps, OfServerClass(n.kind))
  }

  /** The stamp a namespace has after these completed bumps. */
  ghost function StampOf(bumps: seq<Counter>, n: Namespace): Stamp {
    Stamp(Saturate(Generation(bumps, n)), Count(bumps, Global))
  }

  /** Two stamps of a namespace are equal exactly if no covering bump lies between them, or the
      sum was already saturated and no global bump lies between them. */
  lemma StampsSeparate(bumps: seq<Counter>, more: seq<Counter>, n: Namespace)
    ensures StampOf(bumps + more, n) == StampOf(bumps, n) <==>
            Untouched(more, n) || (Generation(bumps, n) >= UINT64_MAX && Global !in more)
  {
    forall b | Covers(b, n)
      ensures Count(bumps + more, b) == Count(bumps, b) + Count(more, b)
      ensures Count(more, b) > 0 <==> b in more
    {
      CountAppend(bumps, more, b);
      CountPositive(more, b);
    }
  }

  /** A stamp never decreases, so equal stamps at two instants are equal in between. */
  lemma StampsBetween(bumps: seq<Counter>, more: seq<Counter>, rest: seq<Counter>, n: Namespace)
    requires StampOf(bumps + more + rest, n) == StampOf(bumps, n)
    ensures StampOf(bumps + more, n) == StampOf(bumps, n)
  {
    forall b | Covers(b, n)
      ensures Count(bumps, b) <= Count(bumps + more, b) <= Count(bumps + more + rest, b)
    {
      CountAppend(bumps, more, b);
      CountAppend(bumps + more, rest, b);
    }
  }

  lemma {:induction false} Repeated(n: nat, b: Counter)
    ensures Count(seq(n, _ => b), b) == n
  {
    if n > 0 {
      Repeated(n - 1, b);
      assert seq(n, _ => b)[..n - 1] == seq(n - 1, _ => b);
    }
  }

  /** At saturation a covering bump leaves the stamp as it was, with every counter in its range. */
  lemma SaturationHidesABump(n: Namespace) returns (bumps: seq<Counter>, b: Counter)
    ensures Covers(b, n) && StampOf(bumps + [b], n) == StampOf(bumps, n)
    ensures forall c :: Count(bumps + [b], c) <= INT64_MAX
  {
    var x, y, z := OfScope(n.scope), OfClass(n.name), OfServerClass(n.kind);
    var xs, ys := seq(INT64_MAX, _ => x), seq(INT64_MAX, _ => y);
    b, bumps := z, xs + ys + [z];
    forall c ensures Count(bumps, c) == (if c == x then INT64_MAX else 0) + (if c == y then INT64_MAX else 0) + (if c == z then 1 else 0) {
      CountAppend(xs, ys, c);
      CountNext(xs + ys, z, c);
      RepeatedCount(INT64_MAX, x, c);
      RepeatedCount(INT64_MAX, y, c);
    }
    forall c ensures Count(bumps + [b], c) <= INT64_MAX {
      CountNext(bumps, b, c);
    }
    StampsSeparate(bumps, [b], n);
  }

  lemma RepeatedCount(n: nat, x: Counter, c: Counter)
    ensures Count(seq(n, _ => x), c) == if c == x then n else 0
  {
    if c == x {
      Repeated(n, x);
    } else {
      CountPositive(seq(n, _ => x), c);
    }
  }

  ghost function Sum(values: seq<nat>): nat {
    if values == [] then 0 else Sum(values[..|values| - 1]) + values[|values| - 1]
  }

  lemma SumPrefix(values: seq<nat>, i: nat)
    requires i <= |values|
    ensures Sum(values[..i]) <= Sum(values)
    decreases |values|
  {
    if i < |values| {
      SumPrefix(values[..|values| - 1], i);
      assert values[..|values| - 1][..i] == values[..i];
    } else {
      assert values[..i] == values;
    }
  }

  /** Adds without wrapping around. */
  method SaturatedAdd(values: seq<nat>) returns (total: nat)
    requires forall v | v in values :: v <= UINT64_MAX
    ensures total == Saturate(Sum(values))
  {
    total := 0;
    for i := 0 to |values|
      invariant total == Sum(values[..i]) <= UINT64_MAX
    {
      assert values[..i + 1][..i] == values[..i];
      if UINT64_MAX - total < values[i] {
        SumPrefix(values, i + 1);
        return UINT64_MAX;
      }
      total := total + values[i];
    }
    assert values[..|values|] == values;
  }

  lemma SumOfThree(a: nat, b: nat, c: nat)
    ensures Sum([a, b, c]) == a + b + c
  {
    assert [a][..0] == [] && Sum([a]) == a;
    assert [a, b][..1] == [a] && Sum([a, b]) == a + b;
    assert [a, b, c][..2] == [a, b];
  }

  function Lookup<K>(m: map<K, nat>, k: K): nat {
    if k in m then m[k] else 0
  }

  const BROWSE := "browse"

  function Defaulted(kind: string): string {
    if kind == "" then BROWSE else kind
  }

  // ---- The table ------------------------------------------------------------------------

  /** scope_hash is an ideal SHA-256 of the scope; ServerRow is the empty hash. */
  datatype ScopeHash = ServerRow | Hashed(scope: string)

  /** The counter a table row holds. */
  function CounterOf(hash: ScopeHash, kind: string): Counter {
    match hash
    case ServerRow => if kind == "" then Global else OfServerClass(kind)
    case Hashed(scope) => if kind == "" then OfScope(scope) else OfClass(Pair(scope, kind))
  }

  /** CHECK (class ~ '^[a-z][a-z0-9_-]{0,31}$') or empty. */
  predicate ClassAllowed(kind: string) {
    kind == "" ||
    (&& |kind| <= 32 && 'a' <= kind[0] <= 'z'
     && forall i | 0 <= i < |kind| :: 'a' <= kind[i] <= 'z' || '0' <= kind[i] <= '9' || kind[i] == '_' || kind[i] == '-')
  }

  lemma ClassAllowedMeans(kind: string)
    ensures ClassAllowed(kind) <==>
              || |kind| == 0
              || (&& |kind| <= 32 && kind[0] in "abcdefghijklmnopqrstuvwxyz"
                  && forall i | 0 <= i < |kind| :: kind[i] in "abcdefghijklmnopqrstuvwxyz0123456789_-")
  {
    assert forall c :: c in "abcdefghijklmnopqrstuvwxyz" <==> 'a' <= c <= 'z';
    assert forall c :: c in "abcdefghijklmnopqrstuvwxyz0123456789_-" <==> 'a' <= c <= 'z' || '0' <= c <= '9' || c == '_' || c == '-';
  }

  class PostgresGenerations {
    var rows: map<(ScopeHash, string), nat>
    /** The counters bumped so far, in order of their commits. */
    ghost var bumps: seq<Counter>

    ghost predicate Valid()
      reads this
    {
      forall hash, kind :: Lookup(rows, (hash, kind)) == Count(bumps, CounterOf(hash, kind)) <= INT64_MAX
    }

    constructor ()
      ensures Valid() && bumps == []
    {
      rows, bumps := map[], [];
    }

    /** None: the query failed. */
    method Get(scope: string, kind: string) returns (stamp: Option<Stamp>)
      requires Valid()
      ensures stamp.Some? ==> stamp.value == StampOf(bumps, Namespace(scope, Pair(scope, Defaulted(kind)), Defaulted(kind)))
    {
      var c := Defaulted(kind);
      var s, sc, g := Lookup(rows, (Hashed(scope), "")), Lookup(rows, (Hashed(scope), c)), Lookup(rows, (ServerRow, c));
      assert CounterOf(Hashed(scope), "") == OfScope(scope) && CounterOf(Hashed(scope), c) == OfClass(Pair(scope, c));
      assert CounterOf(ServerRow, c) == OfServerClass(c) && CounterOf(ServerRow, "") == Global;
      SumOfThree(s, sc, g);
      var scopeGen := SaturatedAdd([s, sc, g]);
      stamp := Some(Stamp(scopeGen, Lookup(rows, (ServerRow, ""))));
      if * {
        stamp := None;
      }
    }

    /** Increments one row, or fails and changes nothing; a counter at its maximum always fails. */
    method Increment(hash: ScopeHash, kind: string) returns (ok: bool)
      requires Valid()
      modifies this
      ensures Valid()
      ensures bumps == if ok then old(bumps) + [CounterOf(hash, kind)] else old(bumps)
      ensures ok ==> ClassAllowed(kind)
    {
      var n := Lookup(rows, (hash, kind));
      ok := *;
      if !ClassAllowed(kind) || n == INT64_MAX {
        ok := false;
      }
      if ok {
        rows, bumps := rows[(hash, kind) := n + 1], bumps + [CounterOf(hash, kind)];
        forall h, c
          ensures Lookup(rows, (h, c)) == Count(bumps, CounterOf(h, c)) <= INT64_MAX
        {
          CountNext(old(bumps), CounterOf(hash, kind), CounterOf(h, c));
        }
      }
    }

    /** An empty scope is not cached and needs no bump. */
    method Bump(scope: string, kind: string) returns (ok: bool)
      requires Valid()
      modifies this
      ensures Valid()
      ensures bumps == if ok && scope != "" then old(bumps) + [OfClass(Pair(scope, Defaulted(kind)))] else old(bumps)
    {
      ok := true;
      if scope != "" {
        ok := Increment(Hashed(scope), Defaulted(kind));
      }
    }

    method BumpScope(scope: string) returns (ok: bool)
      requires Valid()
      modifies this
      ensures Valid()
      ensures bumps == if ok && scope != "" then old(bumps) + [OfScope(scope)] else old(bumps)
    {
      ok := true;
      if scope != "" {
        ok := Increment(Hashed(scope), "");
      }
    }

    method BumpAll() returns (ok: bool)
      requires Valid()
      modifies this
      ensures Valid()
      ensures bumps == if ok then old(bumps) + [Global] else old(bumps)
    {
      ok := Increment(ServerRow, "");
    }

    method BumpServerClass(kind: string) returns (ok: bool)
      requires Valid()
      modifies this
      ensures Valid()
      ensures kind == "" ==> !ok
      ensures bumps == if ok then old(bumps) + [OfServerClass(kind)] else old(bumps)
    {
      ok := false;
      if kind != "" {
        ok := Increment(ServerRow, kind);
      }
    }
  }

  // ---- The in-memory form -----------------------------------------------------------------

  /** Increments a uint64. */
  function Next(n: nat): nat {
    if n >= UINT64_MAX then 0 else n + 1
  }

  ghost function Wrapped(n: nat): nat {
    if n == 0 then 0 else Next(Wrapped(n - 1))
  }

  lemma {:induction false} WrappedSmall(n: nat)
    requires n <= UINT64_MAX
    ensures Wrapped(n) == n
  {
    if n > 0 {
      WrappedSmall(n - 1);
    }
  }

  lemma {:induction false} WrappedWithin(n: nat)
    ensures Wrapped(n) <= UINT64_MAX
  {
    if n > 0 {
      WrappedWithin(n - 1);
    }
  }

  function ClassKey(scope: string, kind: string): string {
    scope + ['\0'] + kind
  }

  /** Scopes without a NUL never share a counter. */
  lemma ClassKeyInjective(s1: string, c1: string, s2: string, c2: string)
    requires ClassKey(s1, c1) == ClassKey(s2, c2) && '\0' !in s1 && '\0' !in s2
    ensures s1 == s2 && c1 == c2
  {
    var k := ClassKey(s1, c1);
    assert k[|s1|] == '\0' && k[|s2|] == '\0';
    assert s1 == k[..|s1|] && s2 == k[..|s2|];
    assert c1 == k[|s1| + 1..] && c2 == k[|s2| + 1..];
  }

  function ScopeCounter(scope: string): Counter {
    OfScope(scope)
  }

  function KindCounter(kind: string): Counter {
    OfServerClass(kind)
  }

  function JoinedCounter(key: string): Counter {
    OfClass(Joined(key))
  }

  /** A table of uint64 counters holds, for each key, the number of its bumps. */
  ghost predicate Tracks(table: map<string, nat>, bumps: seq<Counter>, of: string -> Counter) {
    forall k :: Lookup(table, k) == Wrapped(Count(bumps, of(k)))
  }

  lemma TracksOther(table: map<string, nat>, bumps: seq<Counter>, of: string -> Counter, b: Counter)
    requires Tracks(table, bumps, of) && forall k :: of(k) != b
    ensures Tracks(table, bumps + [b], of)
  {
    forall k ensures Lookup(table, k) == Wrapped(Count(bumps + [b], of(k))) {
      CountNext(bumps, b, of(k));
    }
  }

  lemma TracksNext(table: map<string, nat>, bumps: seq<Counter>, of: string -> Counter, key: string)
    requires Tracks(table, bumps, of) && forall k :: of(k) == of(key) ==> k == key
    ensures Tracks(table[key := Next(Lookup(table, key))], bumps + [of(key)], of)
  {
    var next := table[key := Next(Lookup(table, key))];
    forall k ensures Lookup(next, k) == Wrapped(Count(bumps + [of(key)], of(k))) {
      CountNext(bumps, of(key), of(k));
    }
  }

  class MemoryGenerationStore {
    var scopes: map<string, nat>
    var classes: map<string, nat>
    var serverClasses: map<string, nat>
    var global: nat
    ghost var bumps: seq<Counter>

    /** Every counter is the number of its bumps, wrapped around at the width of a uint64. */
    ghost predicate Valid()
      reads this
    {
      && Tracks(scopes, bumps, ScopeCounter)
      && Tracks(classes, bumps, JoinedCounter)
      && Tracks(serverClasses, bumps, KindCounter)
      && global == Wrapped(Count(bumps, Global))
    }

    constructor ()
      ensures Valid() && bumps == []
    {
      scopes, classes, serverClasses, global, bumps := map[], map[], map[], 0, [];
    }

    /** None: the context was already cancelled. Until a counter wraps around, the stamp is that of
        the bumps. */
    method Get(scope: string, kind: string) returns (stamp: Option<Stamp>)
      requires Valid()
      ensures stamp.Some? ==> stamp.value == WrappedStamp(bumps, Namespace(scope, Joined(ClassKey(scope, Defaulted(kind))), Defaulted(kind)))
      ensures stamp.Some? && |bumps| <= UINT64_MAX ==>
                stamp.value == StampOf(bumps, Namespace(scope, Joined(ClassKey(scope, Defaulted(kind))), Defaulted(kind)))
    {
      var c := Defaulted(kind);
      var s, sc, g := Lookup(scopes, scope), Lookup(classes, ClassKey(scope, c)), Lookup(serverClasses, c);
      assert s == Wrapped(Count(bumps, ScopeCounter(scope)));
      assert sc == Wrapped(Count(bumps, JoinedCounter(ClassKey(scope, c))));
      assert g == Wrapped(Count(bumps, KindCounter(c)));
      CounterWithin(bumps, OfScope(scope));
      CounterWithin(bumps, JoinedCounter(ClassKey(scope, c)));
      CounterWithin(bumps, OfServerClass(c));
      CounterWithin(bumps, Global);
      SumOfThree(s, sc, g);
      var scopeGen := SaturatedAdd([s, sc, g]);
      stamp := Some(Stamp(scopeGen, global));
      if * {
        stamp := None;
      }
    }

    method Bump(scope: string, kind: string) returns (ok: bool)
      requires Valid()
      modifies this
      ensures Valid()
      ensures bumps == if ok && scope != "" then old(bumps) + [JoinedCounter(ClassKey(scope, Defaulted(kind)))] else old(bumps)
    {
      ok := *;
      if ok && scope != "" {
        var k := ClassKey(scope, Defaulted(kind));
        TracksNext(classes, bumps, JoinedCounter, k);
        TracksOther(scopes, bumps, ScopeCounter, JoinedCounter(k));
        TracksOther(serverClasses, bumps, KindCounter, JoinedCounter(k));
        CountNext(bumps, JoinedCounter(k), Global);
        classes, bumps := classes[k := Next(Lookup(classes, k))], bumps + [JoinedCounter(k)];
      }
    }

    method BumpScope(scope: string) returns (ok: bool)
      requires Valid()
      modifies this
      ensures Valid()
      ensures bumps == if ok && scope != "" then old(bumps) + [OfScope(scope)] else old(bumps)
    {
      ok := *;
      if ok && scope != "" {
        TracksNext(scopes, bumps, ScopeCounter, scope);
        TracksOther(classes, bumps, JoinedCounter, OfScope(scope));
        TracksOther(serverClasses, bumps, KindCounter, OfScope(scope));
        CountNext(bumps, OfScope(scope), Global);
        scopes, bumps := scopes[scope := Next(Lookup(scopes, scope))], bumps + [OfScope(scope)];
      }
    }

    method BumpAll() returns (ok: bool)
      requires Valid()
      modifies this
      ensures Valid() && bumps == if ok then old(bumps) + [Global] else old(bumps)
    {
      ok := *;
      if ok {
        TracksOther(scopes, bumps, ScopeCounter, Global);
        TracksOther(classes, bumps, JoinedCounter, Global);
        TracksOther(serverClasses, bumps, KindCounter, Global);
        CountNext(bumps, Global, Global);
        global, bumps := Next(global), bumps + [Global];
      }
    }

    /** Unlike the table, an empty class is accepted and bumps nothing. */
    method BumpServerClass(kind: string) returns (ok: bool)
      requires Valid()
      modifies this
      ensures Valid()
      ensures bumps == if ok && kind != "" then old(bumps) + [OfServerClass(kind)] else old(bumps)
    {
      ok := *;
      if ok && kind != "" {
        TracksNext(serverClasses, bumps, KindCounter, kind);
        TracksOther(scopes, bumps, ScopeCounter, OfServerClass(kind));
        TracksOther(classes, bumps, JoinedCounter, OfServerClass(kind));
        CountNext(bumps, OfServerClass(kind), Global);
        serverClasses, bumps := serverClasses[kind := Next(Lookup(serverClasses, kind))], bumps + [OfServerClass(kind)];
      }
    }
  }

  /** The stamp made of counters that wrap around. */
  ghost function WrappedStamp(bumps: seq<Counter>, n: Namespace): Stamp {
    Stamp(Saturate(Wrapped(Count(bumps, OfScope(n.scope))) + Wrapped(Count(bumps, OfClass(n.name))) + Wrapped(Count(bumps, OfServerClass(n.kind)))),
          Wrapped(Count(bumps, Global)))
  }

  /** After 2^64 bumps of one scope its stamps repeat. */
  lemma WrappingHidesBumps(n: Namespace) returns (bumps: seq<Counter>)
    ensures bumps != [] && (forall b | b in bumps :: Covers(b, n)) && WrappedStamp(bumps, n) == WrappedStamp([], n)
  {
    var x := OfScope(n.scope);
    bumps := seq(UINT64_MAX + 1, _ => x);
    forall c ensures Count(bumps, c) == if c == x then UINT64_MAX + 1 else 0 {
      RepeatedCount(UINT64_MAX + 1, x, c);
    }
    WrappedSmall(UINT64_MAX);
  }

  lemma CounterWithin(bumps: seq<Counter>, b: Counter)
    ensures Wrapped(Count(bumps, b)) <= UINT64_MAX
    ensures |bumps| <= UINT64_MAX ==> Wrapped(Count(bumps, b)) == Count(bumps, b)
  {
    var n := Count(bumps, b);
    CountPositive(bumps, b);
    WrappedWithin(n);
    if n <= UINT64_MAX {
      WrappedSmall(n);
    }
  }
}
