/** How long a scope waits for its turn. */
module WarmFairness {
  import opened Basics
  import opened WarmQueue
  import opened WarmRuns
  import opened WarmLedger

  /** While it waits, a scope could be selected at every selection and is not stamped. */
  ghost predicate Waits(states: seq<State>, steps: seq<Step>, scope: string)
    requires Trace(states, steps)
  {
    && Stamp(scope) !in steps
    && forall i | 0 <= i < |steps| && steps[i].Select? :: Eligible(states[i], steps[i].v, scope)
  }

  /** Every scope keeps a job after it was stamped. */
  ghost predicate KeepJobs(states: seq<State>, steps: seq<Step>)
    requires Trace(states, steps)
  {
    forall i, k | 0 <= i < k < |states| && steps[i].Stamp? :: HasJob(states[k], steps[i].scope)
  }

  /** A second stamp of any scope would have come after one of the waiting scope. */
  lemma StampedOnce(states: seq<State>, steps: seq<Step>, waiting: string, i: nat, k: nat)
    requires Trace(states, steps) && Inv(states[0]) && Waits(states, steps, waiting) && KeepJobs(states, steps)
    requires i < k < |steps| && steps[i].Stamp?
    ensures steps[k] != steps[i]
  {
    hide Inv, Next, Eligible;
    if steps[k] == steps[i] {
      var tail, rest := states[i..], steps[i..];
      assert Trace(tail, rest) by {
        forall j | 0 <= j < |rest| ensures Next(tail[j], rest[j], tail[j + 1]) {
          assert Next(states[i + j], steps[i + j], states[i + j + 1]);
        }
      }
      TraceKeeps(states, steps, i);
      assert steps[i] in steps;
      assert BothWait(tail, rest, steps[i].scope, waiting);
      InSlice(steps, i, 1, k - i, Stamp(waiting));
      NeverTwiceInARow(tail, rest, steps[i].scope, waiting, k - i);
      assert false;
    }
  }

  lemma InSlice<T>(s: seq<T>, i: nat, a: nat, b: nat, x: T)
    requires i <= |s| && a <= b <= |s| - i
    ensures x in s[i..][a..b] ==> x in s
  {
    assert s[i..][a..b] == s[i + a..i + b];
  }

  lemma {:induction false} TraceKeeps(states: seq<State>, steps: seq<Step>, i: nat)
    requires Trace(states, steps) && Inv(states[0]) && i < |states|
    ensures Inv(states[i])
  {
    if i > 0 {
      TraceKeeps(states, steps, i - 1);
      assert Next(states[i - 1], steps[i - 1], states[i]);
      NextKeeps(states[i - 1], steps[i - 1], states[i]);
    }
  }

  /** The stamps among the first n steps are of distinct scopes. */
  lemma {:induction false} StampsAreDistinct(states: seq<State>, steps: seq<Step>, waiting: string, n: nat)
    requires Trace(states, steps) && Inv(states[0]) && Waits(states, steps, waiting) && KeepJobs(states, steps) && n <= |steps|
    ensures Distinct(Account(steps[..n]).stamps)
    ensures forall scope | scope in Account(steps[..n]).stamps :: exists i :: 0 <= i < n && steps[i] == Stamp(scope)
  {
    hide Inv, Trace, Waits, KeepJobs, Outside;
    if n > 0 {
      var last := steps[n - 1];
      StampsAreDistinct(states, steps, waiting, n - 1);
      var before := Account(steps[..n - 1]).stamps;
      assert Account(steps[..n]).stamps == before + Entered(last).stamps by {
        assert steps[..n][..n - 1] == steps[..n - 1];
      }
      if last.Stamp? && last.scope in before {
        var i :| 0 <= i < n - 1 && steps[i] == Stamp(last.scope);
        StampedOnce(states, steps, waiting, i, n - 1);
      }
    }
  }

  ghost function JobScopes(s: State): set<string> {
    set id | id in s.jobs :: id.scope
  }

  lemma {:induction false} ScopesCount(ids: set<JobId>)
    ensures |set id | id in ids :: id.scope| <= |ids|
    decreases |ids|
  {
    var scopes := set id | id in ids :: id.scope;
    if ids != {} {
      var x :| x in ids;
      var fewer := set id | id in ids - {x} :: id.scope;
      ScopesCount(ids - {x});
      assert scopes == fewer + {x.scope};
    } else {
      assert scopes == {};
    }
  }

  /** A scope that could be selected all the time waits for at most as many stamps of others as
      there are other scopes with jobs, and so for fewer than the configured number of jobs. */
  lemma WaitIsBounded(states: seq<State>, steps: seq<Step>, waiting: string)
    requires Trace(states, steps) && Inv(states[0]) && Waits(states, steps, waiting) && KeepJobs(states, steps)
    ensures
      var last := states[|steps|];
      && |Account(steps).stamps| <= |JobScopes(last) - {waiting}| <= |last.jobs| <= last.config.maxTracked
      && (HasJob(last, waiting) ==> |Account(steps).stamps| < last.config.maxTracked)
  {
    var last, stamps := states[|steps|], Account(steps).stamps;
    assert steps[..|steps|] == steps;
    StampsAreDistinct(states, steps, waiting, |steps|);
    var pool := JobScopes(last) - {waiting};
    forall scope | scope in stamps ensures scope in pool {
      var i :| 0 <= i < |steps| && steps[i] == Stamp(scope);
      assert HasJob(last, scope);
      assert steps[i] in steps;
    }
    DistinctCount(stamps, pool);
    ScopesCount(last.jobs.Keys);
    assert JobScopes(last) == set id | id in last.jobs.Keys :: id.scope;
    SubsetCount(pool, JobScopes(last));
    TraceKeeps(states, steps, |steps|);
    if HasJob(last, waiting) {
      assert waiting in JobScopes(last) && pool < JobScopes(last);
      assert JobScopes(last) - pool == {waiting};
    }
  }
}
