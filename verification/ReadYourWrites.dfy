/** Exactly when an acknowledged write is seen: the proviso of Coherence is not only enough, but
    every order of events that breaks it is the order of events of a run that misses a write. */
module ReadYourWrites {
  import opened Basics
  import opened Generations
  import opened Coherence

  // ---- The order of events, whatever the origin was doing -----------------------------------

  /** The same event at another version of the origin. */
  function At(e: Event, origin: nat): Event {
    match e
    case Bumped(_, b) => Bumped(origin, b)
    case Failed(_, b) => Failed(origin, b)
    case Cleared(_, window) => Cleared(origin, window)
  }

  ghost predicate SameEvents(log: seq<Event>, other: seq<Event>) {
    |log| == |other| && forall k | 0 <= k < |log| :: log[k] == At(other[k], log[k].origin)
  }

  lemma SameNext(log: seq<Event>, other: seq<Event>, origin: nat)
    requires |log| < |other| && SameEvents(log, other[..|log|])
    ensures SameEvents(log + [At(other[|log|], origin)], other[..|log| + 1])
  {
  }

  /** Stamps, flag and pending global bumps do not depend on the origin. */
  lemma {:induction false} SameEffect(log: seq<Event>, other: seq<Event>)
    requires SameEvents(log, other)
    ensures Bumps(log) == Bumps(other) && Flag(log) == Flag(other) && Clearing(log) == Clearing(other)
  {
    if log != [] {
      var n := |log| - 1;
      SameEffect(log[..n], other[..n]);
    }
  }

  lemma SameRemembers(log: seq<Event>, other: seq<Event>, n: Namespace)
    requires SameEvents(log, other) && Remembers(other, n, |other|)
    ensures Remembers(log, n, |log|)
  {
    forall i | 0 <= i < |log| && log[i].Failed? && log[i].b == OfScope(n.scope)
      ensures MadeGood(log, n, i, |log|)
    {
      assert other[i].Failed? && other[i].b == log[i].b;
      var j :| i < j < |other| && other[j].Bumped? && Covers(other[j].b, n);
      assert log[j].Bumped? && log[j].b == other[j].b;
    }
  }

  lemma RememberedPrefix(log: seq<Event>, n: Namespace, at: nat)
    requires at <= |log| && Remembers(log[..at], n, at)
    ensures Remembers(log, n, at)
  {
    forall i | 0 <= i < at && log[i].Failed? && log[i].b == OfScope(n.scope)
      ensures MadeGood(log, n, i, at)
    {
      assert log[..at][i] == log[i];
      var j :| i < j < at && log[..at][j].Bumped? && Covers(log[..at][j].b, n);
      assert log[j] == log[..at][j];
    }
  }

  /** Events that do not cover a namespace leave its stamp. */
  lemma StampKept(log: seq<Event>, i: nat, n: Namespace)
    requires i <= |log| && forall j | i <= j < |log| && log[j].Bumped? :: !Covers(log[j].b, n)
    ensures StampAt(log, n) == StampAt(log[..i], n)
  {
    BumpsSplit(log, i);
    UncoveredBumps(log[i..], n);
    StampsSeparate(Bumps(log[..i]), Bumps(log[i..]), n);
  }

  lemma {:induction false} UncoveredBumps(log: seq<Event>, n: Namespace)
    requires forall j | 0 <= j < |log| && log[j].Bumped? :: !Covers(log[j].b, n)
    ensures Untouched(Bumps(log), n)
  {
    if log != [] {
      UncoveredBumps(log[..|log| - 1], n);
    }
  }

  // ---- Building runs ------------------------------------------------------------------------

  ghost predicate Reaches(s: State, t: State) {
    exists steps: seq<Step> :: Leads(s, steps, t)
  }

  lemma {:induction false} LeadsOn(s: State, steps: seq<Step>, t: State, step: Step)
    requires Leads(s, steps, t) && Enabled(t, step)
    ensures Leads(s, steps + [step], Apply(t, step))
    decreases |steps|
  {
    if steps == [] {
      assert steps + [step] == [step] && [step][1..] == [];
      assert Leads(Apply(t, step), [], Apply(t, step));
    } else {
      LeadsOn(Apply(s, steps[0]), steps[1..], t, step);
      assert (steps + [step])[1..] == steps[1..] + [step];
    }
  }

  lemma ReachesOn(s: State, t: State, step: Step)
    requires Reaches(s, t) && Enabled(t, step)
    ensures Reaches(s, Apply(t, step))
  {
    var steps :| Leads(s, steps, t);
    LeadsOn(s, steps, t, step);
  }

  /** The state with one more reader, which has just read its stamp, in the given phase. */
  ghost function With(t: State, a: nat, n: Namespace, resource: string, warm: bool, phase: Phase): State {
    t.(readers := t.readers[a := Reader(n, resource, StampAt(t.log, n), |t.log|, warm, phase)])
  }

  lemma CanObserve(s: State, t: State, a: nat, n: Namespace, resource: string, warm: bool)
    requires Reaches(s, t) && a !in t.readers && n.scope != ""
    ensures Reaches(s, With(t, a, n, resource, warm, Observed))
  {
    ReachesOn(s, t, Observe(a, n, resource, warm));
  }

  lemma CanAdvance(s: State, t: State, a: nat, n: Namespace, resource: string, warm: bool, phase: Phase, step: Step, next: Phase)
    requires Reaches(s, With(t, a, n, resource, warm, phase))
    requires var u := With(t, a, n, resource, warm, phase); Enabled(u, step) && Apply(u, step) == Advance(u, a, next)
    ensures Reaches(s, With(t, a, n, resource, warm, next))
  {
    hide Leads, Reaches, Bumps, StampAt, Flag, Clearing;
    var u := With(t, a, n, resource, warm, phase);
    ReachesOn(s, u, step);
    assert Advance(u, a, next) == With(t, a, n, resource, warm, next);
  }

  lemma CanFetch(s: State, t: State, a: nat, n: Namespace, resource: string, warm: bool)
    requires Reaches(s, t) && a !in t.readers && n.scope != ""
    ensures Reaches(s, With(t, a, n, resource, warm, Fetched(|t.log|, t.origin)))
  {
    hide Leads, Reaches, Bumps, StampAt, Flag, Clearing;
    var at, v := |t.log|, t.origin;
    CanObserve(s, t, a, n, resource, warm);
    CanAdvance(s, t, a, n, resource, warm, Observed, BeginFetch(a), Fetching(at, v));
    CanAdvance(s, t, a, n, resource, warm, Fetching(at, v), EndFetch(a, v), Fetched(at, v));
  }

  /** A warm refresh fills the cache whatever the flag says. */
  lemma CanFill(s: State, t: State, a: nat, n: Namespace, resource: string)
    requires Reaches(s, t) && a !in t.readers && n.scope != ""
    ensures Reaches(s, t.(cache := t.cache[Key(n, resource, StampAt(t.log, n)) := Entry(t.origin, |t.log|)]))
  {
    hide Leads, Reaches, Bumps, Flag, StampAt, Clearing;
    var at, v := |t.log|, t.origin;
    CanFetch(s, t, a, n, resource, true);
    CanAdvance(s, t, a, n, resource, true, Fetched(at, v), CheckStore(a), Passed(at, v));
    CanAdvance(s, t, a, n, resource, true, Passed(at, v), RecheckStore(a), Ready(at, v));
    var u := With(t, a, n, resource, true, Ready(at, v));
    ReachesOn(s, u, Store(a));
    assert Apply(u, Store(a)).readers == t.readers;
  }

  /** While the flag is down, a request is answered from an entry under its current key. */
  lemma CanHit(s: State, t: State, a: nat, n: Namespace, resource: string)
    requires Reaches(s, t) && a !in t.readers && n.scope != "" && !Flag(t.log)
    requires Key(n, resource, StampAt(t.log, n)) in t.cache
    ensures Reaches(s, With(t, a, n, resource, false, Served(t.cache[Key(n, resource, StampAt(t.log, n))], |t.log|, |t.log|)))
  {
    hide Leads, Reaches, Bumps, StampAt, Clearing;
    var at, e := |t.log|, t.cache[Key(n, resource, StampAt(t.log, n))];
    CanObserve(s, t, a, n, resource, false);
    CanAdvance(s, t, a, n, resource, false, Observed, Lookup(a), Looked(e));
    CanAdvance(s, t, a, n, resource, false, Looked(e), CheckFlag(a), Checked(e, at));
    CanAdvance(s, t, a, n, resource, false, Checked(e, at), RecheckHit(a), Served(e, at, at));
  }

  /** Everything but the log is as it was, and nobody is reading. */
  ghost predicate Quiet(s: State, t: State) {
    t.origin == s.origin && t.cache == s.cache && t.writes == s.writes && t.readers == map[]
  }

  /** Nobody is reading, and every write has been acknowledged. */
  ghost predicate Settled(s: State) {
    s.readers == map[] && forall w | w in s.writes :: s.writes[w].Acked?
  }

  ghost function Cause(e: Event): Step {
    match e
    case Bumped(_, b) => Invalidate(b)
    case Failed(_, b) => InvalidateFails(b)
    case Cleared(_, window) => if window == 0 then Restart else ClearFlag(window - 1)
  }

  lemma CanCause(u: State, e: Event)
    requires Reaches(INITIAL, u) && Settled(u) && (e.Cleared? ==> e.window == 0 || e.window - 1 in Clearing(u.log))
    ensures Reaches(INITIAL, u.(log := u.log + [At(e, u.origin)]))
  {
    ReachesOn(INITIAL, u, Cause(e));
    assert Apply(u, Cause(e)) == u.(log := u.log + [At(e, u.origin)]);
  }

  /** From any settled state, the rest of an order of events can follow. */
  lemma {:induction false} CanReplay(s: State, log: seq<Event>) returns (t: State)
    requires Reaches(INITIAL, s) && Settled(s) && Realizable(log)
    requires |s.log| <= |log| && SameEvents(s.log, log[..|s.log|])
    ensures Reaches(INITIAL, t) && Quiet(s, t) && SameEvents(t.log, log)
    decreases |log| - |s.log|
  {
    var k := |s.log|;
    if k == |log| {
      assert log[..k] == log;
      t := s;
    } else {
      SameEffect(s.log, log[..k]);
      CanCause(s, log[k]);
      SameNext(s.log, log, s.origin);
      t := CanReplay(s.(log := s.log + [At(log[k], s.origin)]), log);
    }
  }

  lemma RealizablePrefix(log: seq<Event>, i: nat)
    requires Realizable(log) && i <= |log|
    ensures Realizable(log[..i])
  {
    forall k | 0 <= k < i && log[k].Cleared?
      ensures log[k].window == 0 || log[k].window - 1 in Clearing(log[..i][..k])
    {
      assert log[..i][..k] == log[..k];
    }
  }

  // ---- Read your writes, exactly --------------------------------------------------------------

  /** A write acknowledged in s, and in t a later answer from the cache to a request of the same
      scope, whose check found the flag down after these events. */
  ghost predicate Answered(log: seq<Event>, n: Namespace, s: State, w: nat, t: State, a: nat) {
    && Reaches(INITIAL, s) && Reaches(s, t)
    && w in s.writes && s.writes[w].Acked? && s.writes[w].scope == n.scope
    && a !in s.readers && a in t.readers && t.readers[a].n == n && t.readers[a].phase.Served?
    && t.readers[a].stamp.scopeGen < UINT64_MAX
    && t.readers[a].phase.at <= |t.log| && SameEvents(t.log[..t.readers[a].phase.at], log)
  }

  ghost predicate Sees(s: State, w: nat, t: State, a: nat)
    requires w in s.writes && a in t.readers && t.readers[a].phase.Served?
  {
    s.writes[w].version <= t.readers[a].phase.entry.version
  }

  lemma RememberedWritesAreSeen(log: seq<Event>, n: Namespace, s: State, w: nat, t: State, a: nat)
    requires n.scope != "" && Remembers(log, n, |log|) && Answered(log, n, s, w, t, a)
    ensures Sees(s, w, t, a)
  {
    var at := t.readers[a].phase.at;
    SameRemembers(t.log[..at], log, n);
    RememberedPrefix(t.log, n, at);
    var before :| Leads(INITIAL, before, s);
    var after :| Leads(s, after, t);
    AcknowledgedWritesAreSeen(before, s, after, t, a, w);
  }

  /** A run of the first events, in which a body of version 0 was cached at their end. */
  lemma CanCache(log: seq<Event>, n: Namespace) returns (s: State)
    requires Realizable(log) && n.scope != ""
    ensures Reaches(INITIAL, s) && SameEvents(s.log, log)
    ensures s == State(s.log, 0, map[Key(n, "", StampAt(log, n)) := Entry(0, |log|)], map[], map[])
  {
    assert Leads(INITIAL, [], INITIAL);
    s := CanReplay(INITIAL, log);
    SameEffect(s.log, log);
    CanFill(INITIAL, s, 0, n, "");
    s := s.(cache := map[Key(n, "", StampAt(log, n)) := Entry(0, |log|)]);
  }

  /** The body stays where it is when a write reaches the origin, its bump fails and it is
      acknowledged. */
  lemma CanMissABump(log: seq<Event>, n: Namespace, i: nat) returns (s: State)
    requires Realizable(log) && n.scope != "" && i < |log| && log[i].Failed? && log[i].b == OfScope(n.scope)
    ensures Reaches(INITIAL, s) && SameEvents(s.log, log[..i + 1])
    ensures s == State(s.log, 1, map[Key(n, "", StampAt(log[..i], n)) := Entry(0, i)], map[], map[0 := Acked(n.scope, 1, i)])
  {
    RealizablePrefix(log, i);
    s := CanCache(log[..i], n);
    ReachesOn(INITIAL, s, WriteAtOrigin(0, n.scope));
    var written := s.(origin := 1, writes := map[0 := AtOrigin(n.scope, 1)]);
    assert Apply(s, WriteAtOrigin(0, n.scope)) == written;
    ReachesOn(INITIAL, written, BumpScope(0, false));
    SameNext(s.log, log, 1);
    var retired := written.(log := s.log + [Failed(1, OfScope(n.scope))], writes := map[0 := Retired(n.scope, 1, i)]);
    assert Apply(written, BumpScope(0, false)) == retired;
    ReachesOn(INITIAL, retired, Acknowledge(0));
    s := retired.(writes := map[0 := Acked(n.scope, 1, i)]);
    assert Apply(retired, Acknowledge(0)) == s;
  }

  /** And it is still there after whatever else happens. */
  lemma CanGoOn(log: seq<Event>, n: Namespace, i: nat) returns (s: State)
    requires Realizable(log) && n.scope != "" && i < |log| && log[i].Failed? && log[i].b == OfScope(n.scope)
    ensures Reaches(INITIAL, s) && SameEvents(s.log, log) && s.readers == map[]
    ensures s.cache == map[Key(n, "", StampAt(log[..i], n)) := Entry(0, i)] && s.writes == map[0 := Acked(n.scope, 1, i)]
  {
    s := CanMissABump(log, n, i);
    s := CanReplay(s, log);
  }

  /** If no bump covered the namespace since, the stale body is served. */
  lemma ForgottenWritesAreMissed(log: seq<Event>, n: Namespace, i: nat) returns (s: State, t: State)
    requires Realizable(log) && !Flag(log) && n.scope != "" && StampAt(log, n).scopeGen < UINT64_MAX
    requires i < |log| && log[i].Failed? && log[i].b == OfScope(n.scope) && !MadeGood(log, n, i, |log|)
    ensures Answered(log, n, s, 0, t, 0) && !Sees(s, 0, t, 0)
  {
    s := CanGoOn(log, n, i);
    SameEffect(s.log, log);
    StampKept(log, i, n);
    assert Leads(s, [], s);
    CanHit(s, s, 0, n, "");
    t := With(s, 0, n, "", false, Served(Entry(0, i), |s.log|, |s.log|));
    assert t.log[..|s.log|] == s.log;
  }

  /** For every order of events after which the flag is down: the acknowledged writes of a scope
      are seen in every run with that order exactly if every failed bump of the scope was made
      good by a later bump that covers the reader's namespace. */
  lemma ReadYourWritesExactly(log: seq<Event>, n: Namespace)
    requires Realizable(log) && !Flag(log) && n.scope != "" && StampAt(log, n).scopeGen < UINT64_MAX
    ensures Remembers(log, n, |log|) <==> forall s, w, t, a | Answered(log, n, s, w, t, a) :: Sees(s, w, t, a)
  {
    if Remembers(log, n, |log|) {
      forall s, w, t, a | Answered(log, n, s, w, t, a)
        ensures Sees(s, w, t, a)
      {
        RememberedWritesAreSeen(log, n, s, w, t, a);
      }
    } else {
      var i :| 0 <= i < |log| && log[i].Failed? && log[i].b == OfScope(n.scope) && !MadeGood(log, n, i, |log|);
      var s, t := ForgottenWritesAreMissed(log, n, i);
    }
  }

  /** Every run has, at every instant, an order of events the theorem speaks of. */
  lemma RunsAreRealizable(steps: seq<Step>, t: State, at: nat)
    requires Leads(INITIAL, steps, t) && at <= |t.log|
    ensures Realizable(t.log[..at])
  {
    RunKeeps(INITIAL, steps, t);
    RealizablePrefix(t.log, at);
  }

  /** It does happen: a bump that fails between a global bump and the lowering of the flag that
      belongs to it, or before a restart, is forgotten. */
  lemma FailuresAreForgotten(n: Namespace)
    ensures var log := [Bumped(0, Global)] + [Failed(0, OfScope(n.scope))] + [Cleared(0, 1)];
            Realizable(log) && !Flag(log) && !Remembers(log, n, |log|)
    ensures var log := [Failed(0, OfScope(n.scope))] + [Cleared(0, 0)];
            Realizable(log) && !Flag(log) && !Remembers(log, n, |log|)
  {
    var bumped := [Bumped(0, Global)];
    var failed := bumped + [Failed(0, OfScope(n.scope))];
    var cleared := failed + [Cleared(0, 1)];
    assert bumped[..0] == [] && failed[..1] == bumped && cleared[..2] == failed;
    assert Clearing(bumped) == {0} && Clearing(failed) == {0};
    assert cleared[1].Failed? && !MadeGood(cleared, n, 1, 3);
    var lost := [Failed(0, OfScope(n.scope))];
    var restarted := lost + [Cleared(0, 0)];
    assert restarted[..1] == lost;
    assert restarted[0].Failed? && !MadeGood(restarted, n, 0, 2);
  }
}
