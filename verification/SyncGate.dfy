/** Collection syncs of several requests at once, as interleaved steps. A sync changes what a
    library shows and marks it in one transaction (or marks it without a visible change); it then reads the mark, invalidates, and clears
    the mark in separate steps. The worker's gate admits one sync at a time. */
module SyncGate {

  /** Where a sync is; it may go on to another library after each. */
  datatype Phase = Between | Committed(library: string) | Marked(library: string) | Invalidated(library: string)

  /** pending are the marked libraries; unflushed those whose change no invalidation has followed. */
  datatype State = State(pending: set<string>, unflushed: set<string>, syncs: map<nat, Phase>)

  const INITIAL := State({}, {}, map[])

  datatype Step =
    | Enter(r: nat)
    | Commit(r: nat, library: string, marks: bool, changes: bool)
    | ReadMark(r: nat)
    | Invalidate(r: nat, ok: bool)
    | ClearMark(r: nat, ok: bool)
    | GiveUp(r: nat)
    | Leave(r: nat)
    | Crash

  predicate At(s: State, r: nat, phase: Phase) {
    r in s.syncs && s.syncs[r] == phase
  }

  /** gated: a sync enters only if no other one is in flight. */
  predicate Enabled(s: State, step: Step, gated: bool) {
    match step
    case Enter(r) => r !in s.syncs && (gated ==> s.syncs == map[])
    case Commit(r, _, marks, changes) => At(s, r, Between) && (changes ==> marks)
    case ReadMark(r) => r in s.syncs && s.syncs[r].Committed?
    case Invalidate(r, _) => r in s.syncs && s.syncs[r].Marked?
    case ClearMark(r, _) => r in s.syncs && s.syncs[r].Invalidated?
    case GiveUp(r) => r in s.syncs
    case Leave(r) => r in s.syncs
    case Crash => true
  }

  function Moved(s: State, r: nat, phase: Phase): State {
    s.(syncs := s.syncs[r := phase])
  }

  function Apply(s: State, step: Step): State
    requires Enabled(s, step, false)
  {
    match step
    case Enter(r) => Moved(s, r, Between)
    case Commit(r, library, marks, changes) =>
      var pending := if marks then s.pending + {library} else s.pending;
      var unflushed := if changes then s.unflushed + {library} else s.unflushed;
      State(pending, unflushed, s.syncs[r := Committed(library)])
    case ReadMark(r) =>
      var library := s.syncs[r].library;
      Moved(s, r, if library in s.pending then Marked(library) else Between)
    case Invalidate(r, ok) => if ok then Moved(s.(unflushed := {}), r, Invalidated(s.syncs[r].library)) else Moved(s, r, Between)
    case ClearMark(r, ok) => Moved(if ok then s.(pending := s.pending - {s.syncs[r].library}) else s, r, Between)
    case GiveUp(r) => Moved(s, r, Between)
    case Leave(r) => s.(syncs := s.syncs - {r})
    case Crash => s.(syncs := map[])
  }

  ghost predicate Leads(s: State, steps: seq<Step>, gated: bool, t: State)
    decreases |steps|
  {
    if steps == [] then s == t
    else Enabled(s, steps[0], gated) && Leads(Apply(s, steps[0]), steps[1..], gated, t)
  }

  lemma {:induction false} LeadsOn(s: State, steps: seq<Step>, gated: bool, t: State, step: Step)
    requires Leads(s, steps, gated, t) && Enabled(t, step, gated)
    ensures Leads(s, steps + [step], gated, Apply(t, step))
    decreases |steps|
  {
    if steps == [] {
      assert steps + [step] == [step] && [step][1..] == [];
      assert Leads(Apply(t, step), [], gated, Apply(t, step));
    } else {
      LeadsOn(Apply(s, steps[0]), steps[1..], gated, t, step);
      assert (steps + [step])[1..] == steps[1..] + [step];
    }
  }

  /** Every change that no invalidation has followed is marked. */
  predicate NothingLost(s: State) {
    s.unflushed <= s.pending
  }

  /** About to clear the mark of a library that has changed since the invalidation. */
  ghost predicate Overtaken(s: State, step: Step) {
    step.ClearMark? && step.ok && step.r in s.syncs && s.syncs[step.r].Invalidated? && s.syncs[step.r].library in s.unflushed
  }

  /** Clearing an overtaken mark is the only way to lose a change, and always does. */
  lemma LostExactly(s: State, step: Step)
    requires Enabled(s, step, false) && NothingLost(s)
    ensures NothingLost(Apply(s, step)) <==> !Overtaken(s, step)
  {
    if step.ClearMark? && step.ok {
      var library := s.syncs[step.r].library;
      assert library !in Apply(s, step).pending;
    }
  }

  /** At most one sync is in flight, and nothing changes between its invalidation and its clearing. */
  ghost predicate GateHolds(s: State) {
    && (forall a, b | a in s.syncs && b in s.syncs :: a == b)
    && (forall r | r in s.syncs && s.syncs[r].Invalidated? :: s.unflushed == {})
  }

  lemma GateKeeps(s: State, step: Step)
    requires GateHolds(s) && Enabled(s, step, true)
    ensures GateHolds(Apply(s, step)) && !Overtaken(s, step)
  {
  }

  /** With the gate no run loses a change, wherever it fails or crashes. */
  lemma {:induction false} GatedRunsLoseNothing(s: State, steps: seq<Step>, t: State)
    requires Leads(s, steps, true, t) && GateHolds(s) && NothingLost(s)
    ensures GateHolds(t) && NothingLost(t)
    decreases |steps|
  {
    if steps != [] {
      GateKeeps(s, steps[0]);
      LostExactly(s, steps[0]);
      GatedRunsLoseNothing(Apply(s, steps[0]), steps[1..], t);
    }
  }

  /** Without the gate a second sync can commit between the first one's invalidation and its
      clearing: its change is then neither flushed nor marked, although every step succeeded. */
  lemma UngatedRunsLose(library: string) returns (steps: seq<Step>, t: State)
    ensures Leads(INITIAL, steps, false, t) && !NothingLost(t) && t.syncs == map[]
  {
    var s1 := Moved(INITIAL, 0, Between);
    var s2 := State({library}, {library}, map[0 := Committed(library)]);
    var s3 := Moved(s2, 0, Marked(library));
    var s4 := State({library}, {}, map[0 := Invalidated(library)]);
    var s5 := Moved(s4, 1, Between);
    var s6 := State({library}, {library}, map[0 := Invalidated(library), 1 := Committed(library)]);
    var s7 := State({}, {library}, map[0 := Between, 1 := Committed(library)]);
    var s8 := Moved(s7, 1, Between);
    var s9 := s8.(syncs := map[0 := Between]);
    t := State({}, {library}, map[]);
    assert Apply(s1, Commit(0, library, true, true)) == s2 && Apply(s2, ReadMark(0)) == s3 && Apply(s3, Invalidate(0, true)) == s4;
    assert Apply(s4, Enter(1)) == s5 && Apply(s5, Commit(1, library, true, true)) == s6 && Apply(s6, ClearMark(0, true)) == s7;
    assert Apply(s7, ReadMark(1)) == s8 && Apply(s8, Leave(1)) == s9 && Apply(s9, Leave(0)) == t;
    steps := [];
    steps := Prepend(Leave(0), steps, s9, t);
    steps := Prepend(Leave(1), steps, s8, t);
    steps := Prepend(ReadMark(1), steps, s7, t);
    steps := Prepend(ClearMark(0, true), steps, s6, t);
    steps := Prepend(Commit(1, library, true, true), steps, s5, t);
    steps := Prepend(Enter(1), steps, s4, t);
    steps := Prepend(Invalidate(0, true), steps, s3, t);
    steps := Prepend(ReadMark(0), steps, s2, t);
    steps := Prepend(Commit(0, library, true, true), steps, s1, t);
    steps := Prepend(Enter(0), steps, INITIAL, t);
  }

  lemma Prepend(step: Step, steps: seq<Step>, s: State, t: State) returns (longer: seq<Step>)
    requires Enabled(s, step, false) && Leads(Apply(s, step), steps, false, t)
    ensures longer == [step] + steps && Leads(s, longer, false, t)
  {
    longer := [step] + steps;
    assert longer[1..] == steps;
  }
}
