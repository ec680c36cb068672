/** The operations of the proxy that bump counters and set the cacheBroken flag. Each appends to
    the log of Coherence exactly what it did, so the flag is always the one the log determines. */
module CacheGuard {
  import opened Basics
  import opened Generations
  import opened Coherence

  /** What an invalidation that succeeds or fails adds to the log at position at. */
  function Invalidation(scope: string, kind: string, ok: bool, origin: nat, at: nat): seq<Event> {
    var b := CounterFor(scope, kind);
    if !ok then [Failed(origin, b)]
    else if b == Global then [Bumped(origin, b), Cleared(origin, at + 1)]
    else [Bumped(origin, b)]
  }

  /** The counter an invalidation bumps. */
  function CounterFor(scope: string, kind: string): Counter {
    if scope != "all" && scope != "" then if kind == "" then OfScope(scope) else OfClass(Pair(scope, kind))
    else if kind != "" then OfServerClass(kind)
    else Global
  }

  /** The namespace of the responses of a scope and class. */
  function NamespaceOf(scope: string, kind: string): Namespace {
    Namespace(scope, Pair(scope, Defaulted(kind)), Defaulted(kind))
  }

  /** The invalidation is meant for the responses of this scope and class. */
  predicate Concerns(scope: string, kind: string, s: string, k: string) {
    (scope == "" || scope == "all" || s == scope) && (kind == "" || Defaulted(k) == kind)
  }

  /** The responses of this scope and class are no longer found under the stamp they had. */
  ghost predicate Retires(before: seq<Event>, after: seq<Event>, s: string, k: string) {
    StampAt(after, NamespaceOf(s, k)) != StampAt(before, NamespaceOf(s, k))
  }

  ghost predicate Unsaturated(log: seq<Event>, s: string, k: string) {
    StampAt(log, NamespaceOf(s, k)).scopeGen < UINT64_MAX
  }

  lemma CounterCovers(scope: string, kind: string, s: string, k: string)
    ensures Covers(CounterFor(scope, kind), NamespaceOf(s, k)) <==> Concerns(scope, kind, s, k)
  {
  }

  /** One bump retires exactly what its counter covers. */
  lemma BumpRetires(log: seq<Event>, origin: nat, b: Counter, s: string, k: string)
    requires Unsaturated(log, s, k)
    ensures Retires(log, log + [Bumped(origin, b)], s, k) <==> Covers(b, NamespaceOf(s, k))
  {
    BumpsNext(log, Bumped(origin, b));
    StampsSeparate(Bumps(log), [b], NamespaceOf(s, k));
  }

  /** An event that is not a bump retires nothing. */
  lemma OthersRetireNothing(log: seq<Event>, e: Event, s: string, k: string)
    requires !e.Bumped?
    ensures StampAt(log + [e], NamespaceOf(s, k)) == StampAt(log, NamespaceOf(s, k))
  {
    BumpsNext(log, e);
    assert Bumps(log) + [] == Bumps(log);
  }

  /** An invalidation that succeeds retires exactly the responses it is meant for; one that fails
      retires none. */
  lemma InvalidationRetires(log: seq<Event>, scope: string, kind: string, ok: bool, origin: nat, s: string, k: string)
    requires Unsaturated(log, s, k)
    ensures Retires(log, log + Invalidation(scope, kind, ok, origin, |log|), s, k) <==> ok && Concerns(scope, kind, s, k)
  {
    var b := CounterFor(scope, kind);
    var bumped := log + [Bumped(origin, b)];
    CounterCovers(scope, kind, s, k);
    BumpRetires(log, origin, b, s, k);
    OthersRetireNothing(log, Failed(origin, b), s, k);
    OthersRetireNothing(bumped, Cleared(origin, |log| + 1), s, k);
    assert bumped + [Cleared(origin, |log| + 1)] == log + [Bumped(origin, b), Cleared(origin, |log| + 1)];
  }

  ghost predicate Trusted(log: seq<Event>) {
    ClearsJustified(log) && NothingForgotten(log, |log|)
  }

  lemma TrustedNext(log: seq<Event>, e: Event)
    requires Trusted(log) && !e.Cleared?
    ensures Trusted(log + [e])
  {
    JustifiedNext(log, e);
    var next := log + [e];
    forall k, i | 0 <= i < k < |next| && next[k].Cleared? && next[k].window <= i && next[i].Failed?
      ensures GlobalBetween(next, i, k)
    {
      assert log[k] == next[k] && log[i] == next[i];
      assert GlobalBetween(log, i, k);
      var j :| i < j < k && GlobalAt(log, j);
      assert GlobalAt(next, j);
    }
  }

  /** Lowering the flag right after its global bump forgets nothing. */
  lemma TrustedClear(log: seq<Event>, origin: nat)
    requires Trusted(log)
    ensures Trusted(log + [Bumped(origin, Global), Cleared(origin, |log| + 1)])
  {
    var bumped, e := log + [Bumped(origin, Global)], Cleared(origin, |log| + 1);
    TrustedNext(log, Bumped(origin, Global));
    assert GlobalAt(bumped, |log|);
    JustifiedNext(bumped, e);
    var next := bumped + [e];
    assert next == log + [Bumped(origin, Global), e];
    forall k, i | 0 <= i < k < |next| && next[k].Cleared? && next[k].window <= i && next[i].Failed?
      ensures GlobalBetween(next, i, k)
    {
      assert bumped[k] == next[k] && bumped[i] == next[i];
      assert GlobalBetween(bumped, i, k);
      var j :| i < j < k && GlobalAt(bumped, j);
      assert GlobalAt(next, j);
    }
  }

  class Handler {
    const gens: PostgresGenerations
    var cacheBroken: bool
    ghost var log: seq<Event>

    /** Operations that run one after the other keep the flag trustworthy. */
    ghost predicate Valid()
      reads this, gens
    {
      gens.Valid() && gens.bumps == Bumps(log) && cacheBroken == Flag(log) && Trusted(log)
    }

    constructor ()
      ensures Valid() && fresh(gens) && log == []
    {
      gens := new PostgresGenerations();
      cacheBroken, log := false, [];
    }

    ghost method Note(e: Event)
      requires Trusted(log) && !e.Cleared?
      modifies this`log
      ensures log == old(log) + [e] && Trusted(log)
      ensures Bumps(log) == Bumps(old(log)) + if e.Bumped? then [e.b] else []
      ensures Flag(log) == (e.Failed? || Flag(old(log)))
    {
      BumpsNext(log, e);
      TrustedNext(log, e);
      log := log + [e];
    }

    /** Retires every response of the writer's scope, or raises the flag. */
    method BumpStateGeneration(scope: string, ghost origin: nat)
      requires Valid()
      modifies this, gens
      ensures Valid()
      ensures scope == "" ==> log == old(log)
      ensures scope != "" ==> log == old(log) + [Bumped(origin, OfScope(scope))] || (cacheBroken && log == old(log) + [Failed(origin, OfScope(scope))])
      ensures
        || (scope != "" && forall s, k | Unsaturated(old(log), s, k) :: Retires(old(log), log, s, k) <==> s == scope)
        || ((scope == "" || cacheBroken) && forall s, k :: !Retires(old(log), log, s, k))
    {
      if scope != "" {
        var ok := gens.BumpScope(scope);
        if ok {
          Note(Bumped(origin, OfScope(scope)));
          forall s, k | Unsaturated(old(log), s, k) ensures Retires(old(log), log, s, k) <==> s == scope {
            BumpRetires(old(log), origin, OfScope(scope), s, k);
          }
        } else {
          Note(Failed(origin, OfScope(scope)));
          cacheBroken := true;
          forall s, k ensures !Retires(old(log), log, s, k) {
            OthersRetireNothing(old(log), Failed(origin, OfScope(scope)), s, k);
          }
        }
      }
    }

    method BumpFor(scope: string, kind: string) returns (ok: bool)
      requires gens.Valid() && (scope == "all" || scope == "" ==> kind != "")
      modifies gens
      ensures gens.Valid()
      ensures gens.bumps == if !ok then old(gens.bumps) else old(gens.bumps) + [CounterFor(scope, kind)]
    {
      if scope == "all" || scope == "" {
        ok := gens.BumpServerClass(kind);
      } else if kind == "" {
        ok := gens.BumpScope(scope);
      } else {
        ok := gens.Bump(scope, kind);
      }
    }

    /** Retires every namespace and lowers the flag. */
    method BumpEverything(ghost origin: nat) returns (ok: bool)
      requires Valid()
      modifies this, gens
      ensures ok ==> Valid() && !cacheBroken
      ensures !ok ==> gens.Valid() && gens.bumps == old(gens.bumps) && log == old(log)
      ensures ok ==> log == old(log) + [Bumped(origin, Global), Cleared(origin, |old(log)| + 1)]
    {
      ok := gens.BumpAll();
      if ok {
        cacheBroken := false;
        ghost var bumped, e := log + [Bumped(origin, Global)], Cleared(origin, |log| + 1);
        TrustedClear(log, origin);
        BumpsNext(log, Bumped(origin, Global));
        BumpsNext(bumped, e);
        assert bumped + [e] == log + [Bumped(origin, Global), e];
        log := log + [Bumped(origin, Global), e];
      }
    }

    method InvalidateCacheContext(scope: string, kind: string, ghost origin: nat) returns (ok: bool)
      requires Valid()
      modifies this, gens
      ensures Valid()
      ensures log == old(log) + Invalidation(scope, kind, ok, origin, |old(log)|)
      ensures (scope == "all" || scope == "") && kind == "" && ok ==> !cacheBroken
      ensures ok ==> forall s, k | Unsaturated(old(log), s, k) :: Retires(old(log), log, s, k) <==> Concerns(scope, kind, s, k)
      ensures !ok ==> cacheBroken && forall s, k | Unsaturated(old(log), s, k) :: !Retires(old(log), log, s, k)
    {
      if (scope == "" || scope == "all") && kind == "" {
        ok := BumpEverything(origin);
      } else {
        ok := BumpFor(scope, kind);
        if ok {
          Note(Bumped(origin, CounterFor(scope, kind)));
        }
      }
      if !ok {
        cacheBroken := true;
        Note(Failed(origin, CounterFor(scope, kind)));
      }
      forall s, k | Unsaturated(old(log), s, k) ensures Retires(old(log), log, s, k) <==> ok && Concerns(scope, kind, s, k) {
        InvalidationRetires(old(log), scope, kind, ok, origin, s, k);
      }
    }

    /** A stamp reported current is the stamp the log determines. */
    method CurrentCacheGeneration(scope: string, kind: string, stamp: Stamp) returns (current: bool)
      requires Valid()
      ensures current ==> stamp == StampAt(log, NamespaceOf(scope, kind))
    {
      var now := gens.Get(scope, kind);
      current := now == Some(stamp);
    }
  }
}
