/** What never happens in a run of the warmer's queue: a store while warming is stopped, a check with
    an expired credential, a selection out of turn or too early, a job beyond the size limits. */
module WarmGuards {
  import opened Basics
  import opened WarmQueue
  import opened WarmRuns

  // ---- Stopped ---------------------------------------------------------------------------------

  /** The three things that stop warming. */
  datatype Stop = Busy | Paused | Disabled

  ghost predicate Stopped(s: State, why: Stop) {
    match why
    case Busy => s.foreground > 0
    case Paused => s.paused
    case Disabled => !s.config.enabled
  }

  /** The step that may end the stop. */
  ghost predicate Lifts(step: Step, why: Stop) {
    match why
    case Busy => step.EndForeground?
    case Paused => step.SetPaused? && !step.paused
    case Disabled => step.Configure? && step.config.enabled
  }

  lemma StoppedStep(s: State, why: Stop, step: Step, t: State)
    requires Stopped(s, why) && Next(s, step, t) && !Lifts(step, why)
    ensures Stopped(t, why) && !step.Check? && (t.cleared == s.cleared || t.cleared == None)
  {
    hide Trimmed, Selects, IsCandidate, Unusable;
    ClearedByCheck(s, step, t);
    if step.Track? {
      TrackEffect(s, step, t, "");
    }
  }

  /** While a foreground request runs, or warming is paused or disabled, no refresh passes its permit
      check, and none stores that had not passed before. */
  lemma {:induction false} StoppedNeverStores(s: State, why: Stop, steps: seq<Step>, t: State, c: Candidate)
    requires Stopped(s, why) && s.cleared != Some(c) && Run(s, steps, t) && forall i | 0 <= i < |steps| :: !Lifts(steps[i], why)
    ensures Stopped(t, why) && StoresNothing(steps, c) && forall i | 0 <= i < |steps| :: !steps[i].Check?
    decreases |steps|
  {
    hide Next, Stopped, Lifts;
    if steps != [] {
      var u :| Next(s, steps[0], u) && Run(u, steps[1..], t);
      StoppedStep(s, why, steps[0], u);
      assert steps[0] == Store(c) ==> s.cleared == Some(c) by { StoreWasCleared(s, steps[0], u); }
      forall i | 0 <= i < |steps[1..]| ensures !Lifts(steps[1..][i], why) {
        assert steps[1..][i] == steps[i + 1];
      }
      StoppedNeverStores(u, why, steps[1..], t, c);
      forall i | 0 <= i < |steps| ensures !steps[i].Check? && (steps[i].Store? ==> steps[i].c != c) {
        assert i > 0 ==> steps[i] == steps[1..][i - 1];
      }
    }
  }

  lemma StoreWasCleared(s: State, step: Step, t: State)
    requires Next(s, step, t)
    ensures step.Store? ==> s.cleared == Some(step.c)
  {
  }

  // ---- Credentials -----------------------------------------------------------------------------

  /** An authorized request stores its credential for 120 seconds under a new version. */
  lemma TrackStoresCredential(s: State, step: Step, t: State)
    requires step.Track? && Next(s, step, t) && s.config.enabled && step.authorized
    requires Acceptable(step.key, step.snap, step.credential, step.authorized)
    ensures step.snap.id.scope in t.contexts
    ensures t.contexts[step.snap.id.scope] == Context(step.credential, step.now + 120_000_000_000, s.contextVersion + 1)
  {
    var e := Expire(s, step.now);
    var u :| Renewed(e, step.now, step.snap.id.scope, step.credential, u) && Enqueued(u, step.now, step.key, step.snap, true, t);
    EnqueuedNumbers(u, step.now, step.key, step.snap, true, t);
  }

  /** The credential of this version, as long as it is there, expires then. */
  ghost predicate ExpiresAt(s: State, scope: string, version: nat, expires: nat) {
    version <= s.contextVersion && (scope in s.contexts && s.contexts[scope].version == version ==> s.contexts[scope].expires == expires)
  }

  lemma {:induction false} CheckedBeforeExpiry(s: State, steps: seq<Step>, t: State, c: Candidate, expires: nat)
    requires ExpiresAt(s, c.id.scope, c.version, expires) && !c.owner && Run(s, steps, t)
    ensures forall i | 0 <= i < |steps| && steps[i].Check? && steps[i].c == c :: steps[i].now < expires
    decreases |steps|
  {
    if steps != [] {
      var u :| Next(s, steps[0], u) && Run(u, steps[1..], t);
      NextNumbers(s, steps[0], u);
      assert steps[0].Check? && steps[0].c == c ==> steps[0].now < expires;
      assert ExpiresAt(u, c.id.scope, c.version, expires);
      CheckedBeforeExpiry(u, steps[1..], t, c, expires);
      forall i | 0 <= i < |steps| && steps[i].Check? && steps[i].c == c ensures steps[i].now < expires {
        assert i > 0 ==> steps[i] == steps[1..][i - 1];
      }
    }
  }

  /** A refresh with a scope's own credential passes its check only while that credential, as it was
      when the refresh was selected, has not expired; it was not expired then either. */
  lemma CredentialNotExpired(s: State, v: View, c: Candidate, selected: State, steps: seq<Step>, t: State)
    requires Inv(s) && Next(s, Select(v, c), selected) && !c.owner && Run(selected, steps, t)
    ensures c.id.scope in s.contexts && v.now < s.contexts[c.id.scope].expires && c.token == s.contexts[c.id.scope].token
    ensures forall i | 0 <= i < |steps| && steps[i].Check? && steps[i].c == c :: steps[i].now < s.contexts[c.id.scope].expires
  {
    CheckedBeforeExpiry(selected, steps, t, c, s.contexts[c.id.scope].expires);
  }

  // ---- Selection -------------------------------------------------------------------------------

  /** The owner's token is used only for jobs of the owner's scope that were tracked without a
      credential, while the scope has none of its own. */
  lemma OwnerTokenStaysHome(s: State, v: View, c: Candidate, selected: State)
    requires Inv(s) && Next(s, Select(v, c), selected) && c.owner
    ensures c.id.scope == v.ownerScope && c.token == v.owner != "" && !c.job.requiresContext
    ensures c.id.scope !in s.contexts || s.contexts[c.id.scope].expires <= v.now
  {
    assert IsCandidate(s, v, c.id) && s.jobs[c.id].snap.id == c.id;
  }

  /** A selected job was last refreshed at least half its lifetime ago, is not backing off, and has
      refreshes left in its scope. */
  lemma SelectedIsDue(s: State, v: View, c: Candidate, selected: State)
    requires Inv(s) && Next(s, Select(v, c), selected)
    ensures c.id in s.jobs && c.job == s.jobs[c.id] && v.now >= c.job.next
    ensures c.job.snap.ttl >= 0 ==> 2 * (v.now - c.job.last) >= c.job.snap.ttl - 1
    ensures (if c.id.scope in v.perScope then v.perScope[c.id.scope] else 0) < s.config.maxPerScope
  {
    assert IsCandidate(s, v, c.id) && s.jobs[c.id].snap.id == c.id;
  }

  /** Scopes served longer ago come first, then more important jobs, then those tracked earlier, and
      within a scope the job that was refreshed longest ago. */
  lemma SelectsInOrder(s: State, v: View, c: Candidate, selected: State, other: JobId)
    requires Inv(s) && Next(s, Select(v, c), selected) && IsCandidate(s, v, other)
    ensures other.scope == c.id.scope ==>
              s.jobs[other].snap.priority < c.job.snap.priority ||
              (s.jobs[other].snap.priority == c.job.snap.priority && c.job.last <= s.jobs[other].last)
    ensures Served(s, c.id.scope) <= Served(s, other.scope)
    ensures other.scope != c.id.scope && Served(s, c.id.scope) == Served(s, other.scope) ==> s.jobs[other].snap.priority <= c.job.snap.priority
    ensures exists leader | leader in s.jobs ::
              && IsCandidate(s, v, leader) && leader.scope == other.scope && s.jobs[other].snap.priority <= s.jobs[leader].snap.priority
              && (Served(s, c.id.scope) == Served(s, leader.scope) && s.jobs[leader].snap.priority == c.job.snap.priority
                  ==> c.job.sequence <= s.jobs[leader].sequence)
  {
    var reps: map<string, JobId> :| Representatives(s, v, reps) && c.id.scope in reps && reps[c.id.scope] == c.id &&
      forall scope | scope in reps :: Before(s, c.id, reps[scope]);
    assert other in s.jobs.Keys && other.scope in reps && Leads(s, reps[other.scope], other);
    assert Before(s, c.id, reps[other.scope]) && IsCandidate(s, v, reps[other.scope]);
    assert s.jobs[c.id].snap.id == c.id;
  }

  // ---- Backing off -----------------------------------------------------------------------------

  /** The step tracks the job anew or ends a refresh of it. */
  ghost predicate Touches(step: Step, id: JobId) {
    (step.Track? && step.snap.id == id) || (step.FinishRefresh? && step.c.id == id)
  }

  /** A job that nothing touches stays as it is, or goes and does not come back. */
  lemma UntouchedStep(s: State, step: Step, t: State, id: JobId)
    requires Next(s, step, t) && !Touches(step, id)
    ensures id in t.jobs ==> id in s.jobs && t.jobs[id] == s.jobs[id]
  {
    if step.Track? {
      TrackKeepsOthers(s, step, t, id);
    } else if step.Configure? {
      if ConfigOk(step.config) {
        TrimmedShrinks(s.jobs, step.config.maxTracked, t.jobs);
      }
    } else if !step.FinishRefresh? && !step.Stamp? {
      PlainStepDrops(s, step, t);
    }
  }

  lemma EnqueuedKeepsOthers(s: State, now: nat, key: string, snap: Snapshot, authorized: bool, t: State, id: JobId)
    requires Enqueued(s, now, key, snap, authorized, t) && snap.id != id
    ensures id in t.jobs ==> id in s.jobs && t.jobs[id] == s.jobs[id]
  {
    var job := Job(key, snap, now, now, 0, 0, authorized, s.sequence + 1);
    if snap.id !in s.jobs && |s.jobs| >= s.config.maxTracked {
      var victim :| IsVictim(s.jobs, victim) && t == InPlaceOf(s, victim, job);
    }
  }

  lemma TrackKeepsOthers(s: State, step: Step, t: State, id: JobId)
    requires step.Track? && Next(s, step, t) && step.snap.id != id
    ensures id in t.jobs ==> id in s.jobs && t.jobs[id] == s.jobs[id]
  {
    hide Enqueued, Acceptable;
    assert Tracked(s, step.now, step.key, step.snap, step.credential, step.authorized, t);
    assert Expire(s, step.now).jobs == s.jobs;
    if Acceptable(step.key, step.snap, step.credential, step.authorized) && s.config.enabled && step.authorized {
      var u :| Renewed(Expire(s, step.now), step.now, step.snap.id.scope, step.credential, u) && Enqueued(u, step.now, step.key, step.snap, true, t);
      assert u.jobs == s.jobs;
      EnqueuedKeepsOthers(u, step.now, step.key, step.snap, true, t, id);
    } else if Acceptable(step.key, step.snap, step.credential, step.authorized) && s.config.enabled {
      EnqueuedKeepsOthers(Expire(s, step.now), step.now, step.key, step.snap, false, t, id);
    }
  }

  /** Until it is touched, a job is not selected before its back-off ends, nor before half its
      lifetime since its last refresh has passed. */
  lemma {:induction false} NotSelectedEarly(s: State, steps: seq<Step>, t: State, id: JobId, job: Job)
    requires (id in s.jobs ==> s.jobs[id] == job) && Run(s, steps, t) && forall i | 0 <= i < |steps| :: !Touches(steps[i], id)
    ensures forall i | 0 <= i < |steps| && steps[i].Select? && steps[i].c.id == id :: steps[i].v.now >= job.next && steps[i].v.now - job.last >= job.snap.ttl / 2
    decreases |steps|
  {
    if steps != [] {
      var u :| Next(s, steps[0], u) && Run(u, steps[1..], t);
      UntouchedStep(s, steps[0], u, id);
      assert steps[0].Select? && steps[0].c.id == id ==> IsCandidate(s, steps[0].v, id);
      forall i | 0 <= i < |steps[1..]| ensures !Touches(steps[1..][i], id) {
        assert steps[1..][i] == steps[i + 1];
      }
      NotSelectedEarly(u, steps[1..], t, id, job);
      forall i | 0 <= i < |steps| && steps[i].Select? && steps[i].c.id == id
        ensures steps[i].v.now >= job.next && steps[i].v.now - job.last >= job.snap.ttl / 2
      {
        assert i > 0 ==> steps[i] == steps[1..][i - 1];
      }
    }
  }

  ghost function Pow2(n: nat): nat {
    if n == 0 then 1 else 2 * Pow2(n - 1)
  }

  /** After k failures in a row: 15 seconds, doubled with each further failure, up to four times. */
  lemma BackoffDoubles(k: nat)
    requires k > 0
    ensures Backoff(k) == 15_000_000_000 * Pow2(Min(k - 1, 4))
  {
    assert Pow2(0) == 1 && Pow2(1) == 2 && Pow2(2) == 4 && Pow2(3) == 8 && Pow2(4) == 16;
  }

  /** A refreshed job is not selected again for half its lifetime, and its failures are forgotten. */
  lemma RefreshedWaits(s: State, c: Candidate, now: nat, bytes: nat, u: State, steps: seq<Step>, t: State)
    requires Next(s, FinishRefresh(c, Refreshed, now, bytes), u) && c.id in u.jobs && u.jobs[c.id].sequence == c.job.sequence
    requires Run(u, steps, t) && forall i | 0 <= i < |steps| :: !Touches(steps[i], c.id)
    ensures u.jobs[c.id].failures == 0
    ensures forall i | 0 <= i < |steps| && steps[i].Select? && steps[i].c.id == c.id :: steps[i].v.now - now >= u.jobs[c.id].snap.ttl / 2
  {
    NotSelectedEarly(u, steps, t, c.id, u.jobs[c.id]);
  }

  /** A job whose refresh failed counts one more failure and is not selected until it has backed off. */
  lemma FailedBacksOff(s: State, c: Candidate, now: nat, bytes: nat, u: State, steps: seq<Step>, t: State)
    requires Next(s, FinishRefresh(c, Errored, now, bytes), u) && c.id in s.jobs && s.jobs[c.id].sequence == c.job.sequence
    requires Run(u, steps, t) && forall i | 0 <= i < |steps| :: !Touches(steps[i], c.id)
    ensures c.id in u.jobs && u.jobs[c.id].failures == s.jobs[c.id].failures + 1 && u.jobs[c.id].last == s.jobs[c.id].last
    ensures forall i | 0 <= i < |steps| && steps[i].Select? && steps[i].c.id == c.id ::
              steps[i].v.now >= now + 15_000_000_000 * Pow2(Min(u.jobs[c.id].failures - 1, 4))
  {
    BackoffDoubles(u.jobs[c.id].failures);
    NotSelectedEarly(u, steps, t, c.id, u.jobs[c.id]);
  }

  /** A rejected credential takes every job of its scope, and itself, out of the queue. */
  lemma RejectedLeaves(s: State, c: Candidate, now: nat, bytes: nat, u: State)
    requires Next(s, FinishRefresh(c, Unauthorized, now, bytes), u)
    ensures c.id.scope !in u.contexts && forall id | id in u.jobs :: id.scope != c.id.scope && id in s.jobs && u.jobs[id] == s.jobs[id]
    ensures forall id | id in s.jobs && id.scope != c.id.scope :: id in u.jobs
  {
  }
  // ---- Size ------------------------------------------------------------------------------------

  /** What one tracked job may hold: a key, a scope and a lifetime, each part bounded. */
  ghost predicate Fits(id: JobId, job: Job) {
    && job.snap.id == id && 1 <= |job.key| <= 512 && 1 <= |id.scope| <= 256
    && |id.path| <= 4096 && |id.query| <= 8192 && |id.accept| <= 512 && job.snap.ttl >= 1 && job.snap.priority in {0, 1, 2, 3}
  }

  ghost predicate AllFit(s: State) {
    forall id | id in s.jobs :: Fits(id, s.jobs[id])
  }

  lemma EnqueuedFits(s: State, now: nat, key: string, snap: Snapshot, authorized: bool, t: State)
    requires AllFit(s) && Enqueued(s, now, key, snap, authorized, t) && Fits(snap.id, Job(key, snap, now, now, 0, 0, authorized, s.sequence + 1))
    ensures AllFit(t)
  {
    forall id | id in t.jobs ensures Fits(id, t.jobs[id]) {
      if id != snap.id {
        EnqueuedKeepsOthers(s, now, key, snap, authorized, t, id);
      } else {
        EnqueuedSelf(s, now, key, snap, authorized, t);
      }
    }
  }

  lemma EnqueuedSelf(s: State, now: nat, key: string, snap: Snapshot, authorized: bool, t: State)
    requires Enqueued(s, now, key, snap, authorized, t) && snap.id in t.jobs
    ensures t.jobs[snap.id] == Job(key, snap, now, now, 0, 0, authorized, s.sequence + 1)
  {
  }

  lemma TrackFits(s: State, step: Step, t: State)
    requires step.Track? && AllFit(s) && Next(s, step, t)
    ensures AllFit(t)
  {
    hide Enqueued;
    assert Tracked(s, step.now, step.key, step.snap, step.credential, step.authorized, t);
    var e := Expire(s, step.now);
    assert e.jobs == s.jobs;
    if Acceptable(step.key, step.snap, step.credential, step.authorized) && s.config.enabled {
      if step.authorized {
        var u :| Renewed(e, step.now, step.snap.id.scope, step.credential, u) && Enqueued(u, step.now, step.key, step.snap, true, t);
        assert u.jobs == s.jobs;
        EnqueuedFits(u, step.now, step.key, step.snap, true, t);
      } else {
        EnqueuedFits(e, step.now, step.key, step.snap, false, t);
      }
    }
  }

  lemma StepFits(s: State, step: Step, t: State)
    requires AllFit(s) && Next(s, step, t)
    ensures AllFit(t)
  {
    if step.Track? {
      TrackFits(s, step, t);
    } else if step.FinishRefresh? {
      hide Backoff;
    } else {
      hide Next;
      forall id | id in t.jobs ensures Fits(id, t.jobs[id]) {
        UntouchedStep(s, step, t, id);
      }
    }
  }

  /** In every run every tracked job is within these bounds, so the queue as a whole is. */
  lemma {:induction false} RunFits(s: State, steps: seq<Step>, t: State)
    requires AllFit(s) && Run(s, steps, t)
    ensures AllFit(t)
    decreases |steps|
  {
    hide Next, AllFit;
    if steps != [] {
      var u :| Next(s, steps[0], u) && Run(u, steps[1..], t);
      StepFits(s, steps[0], u);
      RunFits(u, steps[1..], t);
    }
  }
}
