/** What holds in every run of the warmer's queue. */
module WarmRuns {
  import opened Basics
  import opened WarmQueue

  // ---- Bounds and numbering ------------------------------------------------------------------

  ghost predicate JobsOk(jobs: map<JobId, Job>, sequence: nat, limit: int) {
    |jobs| <= limit && forall id | id in jobs :: jobs[id].snap.id == id && jobs[id].sequence <= sequence
  }

  ghost predicate ContextsOk(contexts: map<string, Context>, version: nat) {
    |contexts| <= MAX_CONTEXTS && "" !in contexts && forall scope | scope in contexts :: contexts[scope].version <= version
  }

  ghost predicate ServedOk(served: map<string, nat>, sequence: nat) {
    forall scope | scope in served :: served[scope] <= sequence
  }

  ghost predicate Inv(s: State) {
    && ConfigOk(s.config) && JobsOk(s.jobs, s.sequence, s.config.maxTracked)
    && ContextsOk(s.contexts, s.contextVersion) && ServedOk(s.served, s.servedSequence)
  }

  /** A map with fewer entries. */
  ghost predicate Shrinks<K, V>(m: map<K, V>, t: map<K, V>) {
    forall k | k in t :: k in m && t[k] == m[k]
  }

  lemma ShrinksCount<K, V>(m: map<K, V>, t: map<K, V>)
    requires Shrinks(m, t)
    ensures |t| <= |m|
  {
    assert t.Keys <= m.Keys;
    SubsetCount(t.Keys, m.Keys);
  }

  lemma JobsShrink(jobs: map<JobId, Job>, t: map<JobId, Job>, sequence: nat, limit: int)
    requires JobsOk(jobs, sequence, limit) && Shrinks(jobs, t)
    ensures JobsOk(t, sequence, limit)
  {
    ShrinksCount(jobs, t);
  }

  lemma ContextsShrink(contexts: map<string, Context>, t: map<string, Context>, version: nat)
    requires ContextsOk(contexts, version) && Shrinks(contexts, t)
    ensures ContextsOk(t, version)
  {
    ShrinksCount(contexts, t);
  }

  lemma ExpireKeeps(s: State, now: nat)
    requires Inv(s)
    ensures Inv(Expire(s, now))
  {
    ContextsShrink(s.contexts, Expire(s, now).contexts, s.contextVersion);
  }

  lemma RenewedKeeps(s: State, now: nat, scope: string, credential: string, t: State)
    requires Inv(s) && scope != "" && Renewed(s, now, scope, credential, t)
    ensures Inv(t)
  {
    if scope in s.contexts || |s.contexts| < MAX_CONTEXTS {
    } else {
      var renewed := Context(credential, now + CREDENTIAL_TTL, s.contextVersion + 1);
      var oldest :| IsOldest(s.contexts, oldest) && t.contexts == (s.contexts - {oldest})[scope := renewed];
      assert (s.contexts - {oldest}).Keys == s.contexts.Keys - {oldest};
    }
  }

  lemma JobsGrow(jobs: map<JobId, Job>, job: Job, sequence: nat, limit: int)
    requires JobsOk(jobs, sequence, limit) && job.sequence == sequence + 1
    requires job.snap.id in jobs || |jobs| < limit
    ensures JobsOk(jobs[job.snap.id := job], sequence + 1, limit)
  {
  }

  lemma InPlaceKeeps(s: State, victim: JobId, job: Job)
    requires Inv(s) && victim in s.jobs && job.sequence == s.sequence + 1
    ensures Inv(InPlaceOf(s, victim, job))
  {
    var rest := s.jobs - {victim};
    assert rest.Keys == s.jobs.Keys - {victim};
    JobsShrink(s.jobs, rest, s.sequence, s.config.maxTracked);
    JobsGrow(rest, job, s.sequence, s.config.maxTracked);
  }

  lemma EnqueuedKeeps(s: State, now: nat, key: string, snap: Snapshot, authorized: bool, t: State)
    requires Inv(s) && Enqueued(s, now, key, snap, authorized, t)
    ensures Inv(t)
  {
    var job := Job(key, snap, now, now, 0, 0, authorized, s.sequence + 1);
    if snap.id in s.jobs || |s.jobs| < s.config.maxTracked {
      JobsGrow(s.jobs, job, s.sequence, s.config.maxTracked);
    } else {
      var victim :| IsVictim(s.jobs, victim) && t == InPlaceOf(s, victim, job);
      InPlaceKeeps(s, victim, job);
    }
  }

  lemma TrackedKeeps(s: State, now: nat, key: string, snap: Snapshot, credential: string, authorized: bool, t: State)
    requires Inv(s) && Tracked(s, now, key, snap, credential, authorized, t)
    ensures Inv(t)
  {
    if Acceptable(key, snap, credential, authorized) && s.config.enabled {
      ExpireKeeps(s, now);
      if authorized {
        var u :| Renewed(Expire(s, now), now, snap.id.scope, credential, u) && Enqueued(u, now, key, snap, true, t);
        RenewedKeeps(Expire(s, now), now, snap.id.scope, credential, u);
        EnqueuedKeeps(u, now, key, snap, true, t);
      } else {
        EnqueuedKeeps(Expire(s, now), now, key, snap, false, t);
      }
    }
  }

  lemma {:induction false} TrimmedShrinks(jobs: map<JobId, Job>, limit: nat, t: map<JobId, Job>)
    requires Trimmed(jobs, limit, t)
    ensures Shrinks(jobs, t) && |t| <= limit
    decreases |jobs|
  {
    if |jobs| > limit {
      var victim :| IsVictim(jobs, victim) && Trimmed(jobs - {victim}, limit, t);
      assert (jobs - {victim}).Keys == jobs.Keys - {victim};
      TrimmedShrinks(jobs - {victim}, limit, t);
    }
  }

  lemma ConfiguredKeeps(s: State, c: Config, t: State)
    requires Inv(s) && Configured(s, c, t)
    ensures Inv(t)
  {
    if ConfigOk(c) {
      TrimmedShrinks(s.jobs, c.maxTracked, t.jobs);
    }
  }

  lemma FinishKeeps(s: State, c: Candidate, outcome: Outcome, now: nat)
    requires Inv(s)
    ensures Inv(Finish(s, c, outcome, now))
  {
    var scope := c.id.scope;
    if outcome.Unauthorized? {
      JobsShrink(s.jobs, WithoutScope(s.jobs, scope), s.sequence, s.config.maxTracked);
      ContextsShrink(s.contexts, s.contexts - {scope}, s.contextVersion);
    }
  }

  ghost predicate OnlyDrops(s: State, t: State) {
    && Shrinks(s.jobs, t.jobs) && Shrinks(s.contexts, t.contexts) && Shrinks(s.served, t.served) && t.config == s.config
    && t.sequence == s.sequence && t.contextVersion == s.contextVersion && t.servedSequence == s.servedSequence
  }

  lemma SiftedDrops(s: State, v: View)
    ensures OnlyDrops(s, Sifted(s, v))
  {
    hide Unusable;
  }

  lemma ForgetDrops(s: State, scope: string)
    ensures OnlyDrops(s, Forget(s, scope))
  {
  }

  lemma ExpireDrops(s: State, now: nat)
    ensures OnlyDrops(s, Expire(s, now))
  {
    hide HasJob;
  }

  lemma PlainStepDrops(s: State, step: Step, t: State)
    requires Next(s, step, t) && !step.Track? && !step.Configure? && !step.FinishRefresh? && !step.Stamp?
    ensures OnlyDrops(s, t)
  {
    hide Tracked, Configured, Finish, Selects, IsCandidate, Permit, Sifted, Forget, Expire;
    if step.Select? || step.SelectNothing? {
      SiftedDrops(s, step.v);
    } else if step.ForgetScope? {
      ForgetDrops(s, step.scope);
    } else if step.ExpireContexts? {
      ExpireDrops(s, step.now);
    }
  }

  lemma DropsKeep(s: State, t: State)
    requires Inv(s) && OnlyDrops(s, t)
    ensures Inv(t)
  {
    JobsShrink(s.jobs, t.jobs, s.sequence, s.config.maxTracked);
    ContextsShrink(s.contexts, t.contexts, s.contextVersion);
  }

  lemma StampKeeps(s: State, scope: string)
    requires Inv(s)
    ensures Inv(Stamped(s, scope))
  {
  }

  /** A selection only drops jobs; a selected one is still there and has refreshes left. */
  lemma SelectionEffect(s: State, v: View, c: Option<Candidate>, t: State)
    requires Inv(s) && Next(s, Selection(v, c), t)
    ensures |t.jobs| <= |s.jobs| && t.config == s.config
    ensures c.Some? ==> c.value.id in t.jobs && t.picked == Some(c.value.id.scope) && Made(v.perScope, c.value.id.scope) < t.config.maxPerScope
  {
    ShrinksCount(s.jobs, t.jobs);
    if c.Some? {
      assert IsCandidate(s, v, c.value.id) && s.jobs[c.value.id].snap.id == c.value.id;
    }
  }

  /** Never more jobs than configured, never more than 32 credentials, and no number is reused. */
  lemma NextKeeps(s: State, step: Step, t: State)
    requires Inv(s) && Next(s, step, t)
    ensures Inv(t)
  {
    hide Inv, Tracked, Configured, Finish, Selects, IsCandidate, Permit, OnlyDrops, Unusable, Stamped;
    if step.Track? {
      TrackedKeeps(s, step.now, step.key, step.snap, step.credential, step.authorized, t);
    } else if step.Configure? {
      ConfiguredKeeps(s, step.config, t);
    } else if step.FinishRefresh? {
      FinishKeeps(s, step.c, step.outcome, step.now);
    } else if step.Stamp? {
      StampKeeps(s, step.scope);
    } else {
      PlainStepDrops(s, step, t);
      DropsKeep(s, t);
    }
  }

  ghost predicate Run(s: State, steps: seq<Step>, t: State)
    decreases |steps|
  {
    if steps == [] then s == t
    else exists u :: Next(s, steps[0], u) && Run(u, steps[1..], t)
  }

  lemma {:induction false} RunThen(s: State, steps: seq<Step>, t: State, more: seq<Step>, u: State)
    requires Run(s, steps, t) && Run(t, more, u)
    ensures Run(s, steps + more, u)
    decreases |steps|
  {
    if steps == [] {
      assert steps + more == more;
    } else {
      var next :| Next(s, steps[0], next) && Run(next, steps[1..], t);
      RunThen(next, steps[1..], t, more, u);
      assert (steps + more)[1..] == steps[1..] + more;
    }
  }

  lemma RunOn(s: State, steps: seq<Step>, t: State, step: Step, u: State)
    requires Run(s, steps, t) && Next(t, step, u)
    ensures Run(s, steps + [step], u)
  {
    assert Run(u, [step][1..], u);
    assert Run(t, [step], u);
    RunThen(s, steps, t, [step], u);
  }

  lemma RunOne(s: State, step: Step, u: State)
    requires Next(s, step, u)
    ensures Run(s, [], s) && Run(s, [step], u)
  {
    assert Run(u, [step][1..], u);
  }

  /** A stamp, or nothing. */
  lemma RunStamp(s: State, scope: string, u: State, stamps: bool)
    requires if stamps then s.picked == Some(scope) && u == Stamped(s, scope) else u == s
    ensures Run(s, if stamps then [Stamp(scope)] else [], u)
  {
    if stamps {
      RunOne(s, Stamp(scope), u);
    }
  }

  lemma {:induction false} RunKeeps(s: State, steps: seq<Step>, t: State)
    requires Inv(s) && Run(s, steps, t)
    ensures Inv(t)
    decreases |steps|
  {
    if steps != [] {
      var u :| Next(s, steps[0], u) && Run(u, steps[1..], t);
      NextKeeps(s, steps[0], u);
      RunKeeps(u, steps[1..], t);
    }
  }

  // ---- Permits -------------------------------------------------------------------------------

  /** The numbers of a selected refresh have been handed out. */
  ghost predicate Issued(s: State, c: Candidate) {
    c.job.sequence <= s.sequence && c.version <= s.contextVersion
  }

  ghost predicate JobGone(s: State, c: Candidate) {
    c.id in s.jobs ==> s.jobs[c.id].sequence != c.job.sequence
  }

  ghost predicate CredentialGone(s: State, c: Candidate) {
    !c.owner && (c.id.scope in s.contexts ==> s.contexts[c.id.scope].version != c.version)
  }

  /** Retired for good: its job or its credential is gone, and its numbers cannot come back. */
  ghost predicate Retired(s: State, c: Candidate) {
    Issued(s, c) && (JobGone(s, c) || CredentialGone(s, c))
  }

  /** What one step does to the numbered entries: it keeps them, drops them or numbers them anew. */
  ghost predicate NumbersAnew(s: State, t: State) {
    && s.sequence <= t.sequence && s.contextVersion <= t.contextVersion
    && (forall id | id in t.jobs :: t.jobs[id].sequence > s.sequence || (id in s.jobs && t.jobs[id].sequence == s.jobs[id].sequence))
    && (forall scope | scope in t.contexts ::
          t.contexts[scope].version > s.contextVersion || (scope in s.contexts && t.contexts[scope] == s.contexts[scope]))
  }

  lemma NumbersThen(s: State, t: State, u: State)
    requires NumbersAnew(s, t) && NumbersAnew(t, u)
    ensures NumbersAnew(s, u)
  {
  }

  lemma RenewedNumbers(s: State, now: nat, scope: string, credential: string, t: State)
    requires Renewed(s, now, scope, credential, t)
    ensures NumbersAnew(s, t) && scope in t.contexts && t.contexts[scope].version == t.contextVersion == s.contextVersion + 1
  {
  }

  lemma EnqueuedNumbers(s: State, now: nat, key: string, snap: Snapshot, authorized: bool, t: State)
    requires Enqueued(s, now, key, snap, authorized, t)
    ensures NumbersAnew(s, t) && t == s.(jobs := t.jobs, sequence := t.sequence)
    ensures snap.id in s.jobs ==> snap.id in t.jobs && t.jobs[snap.id].sequence == t.sequence == s.sequence + 1
  {
  }

  lemma TrackedNumbers(s: State, now: nat, key: string, snap: Snapshot, credential: string, authorized: bool, t: State)
    requires Tracked(s, now, key, snap, credential, authorized, t)
    ensures NumbersAnew(s, t)
    ensures Acceptable(key, snap, credential, authorized) && s.config.enabled ==>
              && (snap.id in s.jobs ==> snap.id in t.jobs && t.jobs[snap.id].sequence > s.sequence)
              && (authorized ==> snap.id.scope in t.contexts && t.contexts[snap.id.scope].version > s.contextVersion)
  {
    if Acceptable(key, snap, credential, authorized) && s.config.enabled {
      var e := Expire(s, now);
      assert NumbersAnew(s, e);
      if authorized {
        var u :| Renewed(e, now, snap.id.scope, credential, u) && Enqueued(u, now, key, snap, true, t);
        RenewedNumbers(e, now, snap.id.scope, credential, u);
        EnqueuedNumbers(u, now, key, snap, true, t);
        NumbersThen(s, e, u);
        NumbersThen(s, u, t);
      } else {
        EnqueuedNumbers(e, now, key, snap, false, t);
        NumbersThen(s, e, t);
      }
    }
  }

  lemma ShrinkNumbers(s: State, t: State)
    requires Shrinks(s.jobs, t.jobs) && Shrinks(s.contexts, t.contexts)
    requires t.sequence == s.sequence && t.contextVersion == s.contextVersion
    ensures NumbersAnew(s, t)
  {
  }

  lemma FinishNumbers(s: State, c: Candidate, outcome: Outcome, now: nat)
    ensures NumbersAnew(s, Finish(s, c, outcome, now))
  {
  }

  lemma NextNumbers(s: State, step: Step, t: State)
    requires Next(s, step, t)
    ensures NumbersAnew(s, t)
  {
    if step.Track? {
      TrackedNumbers(s, step.now, step.key, step.snap, step.credential, step.authorized, t);
    } else if step.FinishRefresh? {
      FinishNumbers(s, step.c, step.outcome, step.now);
    } else if step.Configure? {
      if ConfigOk(step.config) {
        TrimmedShrinks(s.jobs, step.config.maxTracked, t.jobs);
      }
      ShrinkNumbers(s, t);
    } else if !step.Stamp? {
      PlainStepDrops(s, step, t);
      ShrinkNumbers(s, t);
    }
  }

  /** Once retired, a refresh never passes its permit check again, in any run. */
  lemma {:induction false} RetiredForGood(s: State, steps: seq<Step>, t: State, c: Candidate, now: nat)
    requires Retired(s, c) && Run(s, steps, t)
    ensures Retired(t, c) && !Permit(t, c, now)
    decreases |steps|
  {
    if steps != [] {
      var u :| Next(s, steps[0], u) && Run(u, steps[1..], t);
      NextNumbers(s, steps[0], u);
      RetiredForGood(u, steps[1..], t, c, now);
    }
  }

  /** What retires a selected refresh: forgetting its scope, tracking its job again, or (unless it
      uses the owner's token) renewing its scope's credential. */
  ghost predicate Supersedes(s: State, step: Step, c: Candidate) {
    match step
    case ForgetScope(scope) => scope == c.id.scope != ""
    case Track(now, key, snap, credential, authorized) =>
      && Acceptable(key, snap, credential, authorized) && s.config.enabled
      && (snap.id == c.id || (authorized && !c.owner && snap.id.scope == c.id.scope))
    case _ => false
  }

  lemma SupersededIsRetired(s: State, step: Step, t: State, c: Candidate)
    requires Issued(s, c) && Supersedes(s, step, c) && Next(s, step, t)
    ensures Retired(t, c)
  {
    if step.Track? {
      TrackedNumbers(s, step.now, step.key, step.snap, step.credential, step.authorized, t);
    }
  }

  /** The steps store nothing for this refresh. */
  ghost predicate StoresNothing(steps: seq<Step>, c: Candidate) {
    forall i | 0 <= i < |steps| && steps[i].Store? :: steps[i].c != c
  }

  /** Only a permit check clears a refresh to store. */
  lemma ClearedByCheck(s: State, step: Step, t: State)
    requires Next(s, step, t)
    ensures t.cleared == s.cleared || t.cleared == None || (step.Check? && t.cleared == Some(step.c))
  {
    if step.Track? {
      TrackEffect(s, step, t, "");
    }
  }

  lemma RetiredStep(s: State, step: Step, t: State, c: Candidate)
    requires Retired(s, c) && s.cleared != Some(c) && Next(s, step, t)
    ensures Retired(t, c) && t.cleared != Some(c) && !(step.Store? && step.c == c)
  {
    hide Tracked, Configured, Selects, Finish, Sifted, Expire, Forget;
    NextNumbers(s, step, t);
    ClearedByCheck(s, step, t);
  }

  lemma {:induction false} RetiredNeverStores(s: State, steps: seq<Step>, t: State, c: Candidate)
    requires Retired(s, c) && s.cleared != Some(c) && Run(s, steps, t)
    ensures StoresNothing(steps, c)
    decreases |steps|
  {
    if steps != [] {
      var u :| Next(s, steps[0], u) && Run(u, steps[1..], t);
      hide Next, Retired;
      RetiredStep(s, steps[0], u, c);
      RetiredNeverStores(u, steps[1..], t, c);
      forall i | 0 <= i < |steps| && steps[i].Store? ensures steps[i].c != c {
        assert i > 0 ==> steps[i] == steps[1..][i - 1];
      }
    }
  }

  /** Some continuation stores for this refresh. */
  ghost predicate MayStore(s: State, c: Candidate) {
    exists steps, t :: Run(s, steps, t) && !StoresNothing(steps, c)
  }

  /** A refresh selected before its scope was forgotten, its job tracked again or its credential
      renewed can still store afterwards exactly if it had passed its permit check by then and not
      stored yet; it never passes the check again. */
  lemma SupersededNeverStores(s: State, v: View, c: Candidate, selected: State, between: seq<Step>, w: State, step: Step, u: State)
    requires Inv(s) && Next(s, Select(v, c), selected) && Run(selected, between, w) && Supersedes(w, step, c) && Next(w, step, u)
    ensures MayStore(u, c) <==> w.cleared == Some(c)
    ensures forall steps, t, now :: Run(u, steps, t) ==> !Permit(t, c, now)
  {
    hide Selects, Permit, Tracked, Sifted, Forget;
    SelectedIsIssued(s, v, c, selected);
    IssuedForGood(selected, between, w, c);
    SupersededIsRetired(w, step, u, c);
    assert u.cleared == w.cleared by {
      if step.Track? {
        TrackEffect(w, step, u, "");
      } else {
        assert u == Forget(w, step.scope);
        ForgetKeepsCleared(w, step.scope);
      }
    }
    if w.cleared == Some(c) {
      ClearedMayStore(u, c);
    } else {
      forall steps, t | Run(u, steps, t) ensures StoresNothing(steps, c) {
        RetiredNeverStores(u, steps, t, c);
      }
    }
    forall steps, t, now | Run(u, steps, t) ensures !Permit(t, c, now) {
      RetiredForGood(u, steps, t, c, now);
    }
  }

  lemma ForgetKeepsCleared(s: State, scope: string)
    ensures Forget(s, scope).cleared == s.cleared
  {
  }

  lemma ClearedMayStore(s: State, c: Candidate)
    requires s.cleared == Some(c)
    ensures MayStore(s, c)
  {
    var steps, t := [Store(c)], s.(cleared := None);
    assert Run(t, steps[1..], t);
    assert Next(s, steps[0], t);
    assert Run(s, steps, t) && steps[0].c == c;
  }

  lemma {:induction false} IssuedForGood(s: State, steps: seq<Step>, t: State, c: Candidate)
    requires Issued(s, c) && Run(s, steps, t)
    ensures Issued(t, c)
    decreases |steps|
  {
    if steps != [] {
      var u :| Next(s, steps[0], u) && Run(u, steps[1..], t);
      NextNumbers(s, steps[0], u);
      IssuedForGood(u, steps[1..], t, c);
    }
  }

  /** A selected refresh has its numbers from the state it was selected in. */
  lemma SelectedIsIssued(s: State, v: View, c: Candidate, t: State)
    requires Inv(s) && Next(s, Select(v, c), t)
    ensures Issued(t, c) && c.job.snap.id == c.id
  {
  }

  // ---- Credentials ---------------------------------------------------------------------------

  ghost predicate Renews(step: Step, scope: string) {
    step.Track? && step.authorized && step.snap.id.scope == scope
  }

  lemma RenewedOthers(s: State, now: nat, scope: string, credential: string, t: State, other: string)
    requires Renewed(s, now, scope, credential, t) && other in t.contexts && other != scope
    ensures other in s.contexts && t.contexts[other] == s.contexts[other]
  {
  }

  /** Besides its job and its credential, tracking only expires things. */
  lemma TrackEffect(s: State, step: Step, t: State, scope: string)
    requires step.Track? && Next(s, step, t)
    ensures t.picked == s.picked && t.cleared == s.cleared && t.config == s.config && t.paused == s.paused && t.foreground == s.foreground
    ensures (t.served == s.served || t.served == Expire(s, step.now).served)
    ensures scope in t.contexts && !Renews(step, scope) ==> scope in s.contexts && t.contexts[scope] == s.contexts[scope]
  {
    if Acceptable(step.key, step.snap, step.credential, step.authorized) && s.config.enabled {
      var e := Expire(s, step.now);
      if step.authorized {
        var u :| Renewed(e, step.now, step.snap.id.scope, step.credential, u) && Enqueued(u, step.now, step.key, step.snap, true, t);
        EnqueuedNumbers(u, step.now, step.key, step.snap, true, t);
        if scope in t.contexts && !Renews(step, scope) {
          RenewedOthers(e, step.now, step.snap.id.scope, step.credential, u, scope);
        }
      } else {
        EnqueuedNumbers(e, step.now, step.key, step.snap, false, t);
      }
    }
  }

  lemma StepNeverRenews(s: State, step: Step, t: State, scope: string)
    requires Next(s, step, t) && scope in t.contexts && !Renews(step, scope)
    ensures scope in s.contexts && t.contexts[scope] == s.contexts[scope]
  {
    hide Tracked, Trimmed, Selects, IsCandidate, Permit, Unusable;
    if step.Track? {
      TrackEffect(s, step, t, scope);
    }
  }

  /** Only an authorized foreground request stores or renews a credential: warming never does. */
  lemma {:induction false} WarmingNeverRenews(s: State, steps: seq<Step>, t: State, scope: string)
    requires Run(s, steps, t) && scope in t.contexts && forall step | step in steps :: !Renews(step, scope)
    ensures scope in s.contexts && t.contexts[scope] == s.contexts[scope]
    decreases |steps|
  {
    if steps != [] {
      var u :| Next(s, steps[0], u) && Run(u, steps[1..], t);
      WarmingNeverRenews(u, steps[1..], t, scope);
      StepNeverRenews(s, steps[0], u, scope);
    }
  }

  // ---- Fairness ------------------------------------------------------------------------------

  ghost predicate Eligible(s: State, v: View, scope: string) {
    exists id :: IsCandidate(s, v, id) && id.scope == scope
  }

  /** The other scope is next in line before this one. */
  ghost predicate Overtaken(s: State, scope: string, other: string) {
    scope in s.served && Served(s, other) < s.served[scope] && s.picked != Some(scope)
  }

  /** A selection serves a least recently served scope among those that could be served. */
  lemma SelectsLeastServed(s: State, v: View, c: Candidate, other: string)
    requires Selects(s, v, c) && Eligible(s, v, other)
    ensures Served(s, c.id.scope) <= Served(s, other)
  {
    var reps: map<string, JobId> :| Representatives(s, v, reps) && c.id.scope in reps && reps[c.id.scope] == c.id &&
      forall scope | scope in reps :: Before(s, c.id, reps[scope]);
    var id :| IsCandidate(s, v, id) && id.scope == other;
    assert other in reps;
  }

  lemma QuietStepOvertaken(s: State, step: Step, t: State, scope: string, other: string)
    requires Overtaken(s, scope, other) && Next(s, step, t) && HasJob(s, scope) && HasJob(t, scope)
    requires !step.Track? && !step.Select? && step != Stamp(other)
    ensures Overtaken(t, scope, other) && step != Stamp(scope)
  {
    hide Tracked, Trimmed, Selects, IsCandidate, Permit, Unusable;
  }

  lemma StaysOvertaken(s: State, step: Step, t: State, scope: string, other: string)
    requires Overtaken(s, scope, other) && Next(s, step, t) && HasJob(s, scope) && HasJob(t, scope)
    requires step != Stamp(other) && (step.Select? ==> Eligible(s, step.v, other))
    ensures Overtaken(t, scope, other) && step != Stamp(scope)
  {
    if step.Track? {
      TrackEffect(s, step, t, scope);
    } else if step.Select? {
      SelectsLeastServed(s, step.v, step.c, other);
    } else {
      QuietStepOvertaken(s, step, t, scope, other);
    }
  }

  ghost predicate Trace(states: seq<State>, steps: seq<Step>) {
    |states| == |steps| + 1 && forall i | 0 <= i < |steps| :: Next(states[i], steps[i], states[i + 1])
  }

  /** From the first stamping on, scope keeps a job and the other scope could always be selected. */
  ghost predicate BothWait(states: seq<State>, steps: seq<Step>, scope: string, other: string)
    requires Trace(states, steps)
  {
    && (forall i | 0 < i < |states| :: HasJob(states[i], scope))
    && (forall i | 0 < i < |steps| && steps[i].Select? :: Eligible(states[i], steps[i].v, other))
  }

  lemma {:induction false} WaitsItsTurn(states: seq<State>, steps: seq<Step>, scope: string, other: string, n: nat)
    requires Trace(states, steps) && BothWait(states, steps, scope, other) && scope != other
    requires Inv(states[0]) && 0 < n <= |steps| && steps[0] == Stamp(scope) && Stamp(other) !in steps[1..n]
    ensures Overtaken(states[n], scope, other) && Stamp(scope) !in steps[1..n]
  {
    hide Eligible, HasJob, JobsOk, ContextsOk;
    assert Next(states[0], steps[0], states[1]);
    if n > 1 {
      assert steps[1..n] == steps[1..n - 1] + [steps[n - 1]];
      WaitsItsTurn(states, steps, scope, other, n - 1);
      assert HasJob(states[n - 1], scope) && HasJob(states[n], scope);
      assert steps[n - 1] in steps[1..n];
      StaysOvertaken(states[n - 1], steps[n - 1], states[n], scope, other);
    }
  }

  /** A scope is never refreshed twice without a waiting scope in between. */
  lemma NeverTwiceInARow(states: seq<State>, steps: seq<Step>, scope: string, other: string, k: nat)
    requires Trace(states, steps) && BothWait(states, steps, scope, other) && scope != other
    requires Inv(states[0]) && 0 < k < |steps| && steps[0] == Stamp(scope) && steps[k] == Stamp(scope)
    ensures Stamp(other) in steps[1..k]
  {
    hide Next, Eligible, HasJob, Inv;
    if Stamp(other) !in steps[1..k] {
      assert steps[1..k + 1] == steps[1..k] + [steps[k]];
      assert steps[k] in steps[1..k + 1];
      WaitsItsTurn(states, steps, scope, other, k + 1);
      assert false;
    }
  }
}
