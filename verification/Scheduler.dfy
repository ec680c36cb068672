/** The warmer. Its methods are the sections that hold the mutex, and each makes one step of
    WarmQueue. A refresh pass strings them together, with foreground steps in between. */
module Scheduler {
  import opened Basics
  import opened WarmQueue
  import opened WarmRuns
  import opened WarmLedger

  predicate AllOutside(others: seq<seq<Step>>) {
    forall i, j | 0 <= i < |others| && 0 <= j < |others[i]| :: Outside(others[i][j])
  }

  predicate LeavesConfig(others: seq<seq<Step>>) {
    forall i, j | 0 <= i < |others| && 0 <= j < |others[i]| :: !others[i][j].Configure?
  }

  lemma RestKeeps(others: seq<seq<Step>>)
    ensures AllOutside(others) ==> AllOutside(Rest(others))
    ensures LeavesConfig(others) ==> LeavesConfig(Rest(others))
    ensures |Rest(others)| < |others| || (others == [] && Rest(others) == [])
  {
  }

  predicate WithinLimits(t: Tally, c: Config) {
    && t.requests <= c.requestsPerPass && t.used <= c.bytesPerPass
    && forall scope | scope in t.perScope :: t.perScope[scope] <= c.maxPerScope
  }

  ghost predicate Capped(c: Config, limits: Config) {
    c.requestsPerPass <= limits.requestsPerPass && c.maxPerScope <= limits.maxPerScope && c.bytesPerPass <= limits.bytesPerPass
  }

  /** Limits that hold throughout a pass: the absolute ones, or the current ones if nobody changes them. */
  ghost predicate Binding(limits: Config, c: Config, others: seq<seq<Step>>) {
    Capped(c, limits) && (limits == ABSOLUTE_LIMITS || LeavesConfig(others))
  }

  const ABSOLUTE_LIMITS := Config(true, 512, 64, 16, 256 * MIB)

  /** What a refresh does to the queue, with what others do before its check and after it. */
  ghost function Refreshing(c: Candidate, now: nat, others: seq<seq<Step>>, checked: bool, stored: bool): seq<Step> {
    (Head(others) + if checked then [Check(c, now)] else []) + (Head(Rest(others)) + if stored then [Store(c)] else [])
  }

  class Warmer {
    var jobs: map<JobId, Job>
    var sequence: nat
    var contexts: map<string, Context>
    var contextVersion: nat
    var served: map<string, nat>
    var servedSequence: nat
    var config: Config
    var paused: bool
    var foreground: int
    var running: bool
    ghost var picked: Option<string>
    ghost var cleared: Option<Candidate>

    ghost function Queue(): State
      reads this
    {
      State(jobs, sequence, contexts, contextVersion, served, servedSequence, picked, cleared, config, paused, foreground)
    }

    ghost predicate Valid()
      reads this
    {
      Inv(Queue())
    }

    constructor ()
      ensures Valid() && Queue() == INITIAL && !running
    {
      jobs, sequence, contexts, contextVersion := map[], 0, map[], 0;
      served, servedSequence, picked, cleared := map[], 0, None, None;
      config, paused, foreground, running := DEFAULT_CONFIG, false, 0, false;
    }

    // ---- Credentials and stamps --------------------------------------------------------------

    method DropExpired(now: nat)
      modifies this`contexts
      ensures contexts == map scope | scope in old(contexts) && now < old(contexts)[scope].expires :: old(contexts)[scope]
    {
      var todo := contexts.Keys;
      while todo != {}
        invariant todo <= contexts.Keys <= old(contexts).Keys
        invariant forall scope | scope in contexts :: contexts[scope] == old(contexts)[scope]
        invariant forall scope | scope in old(contexts) && scope !in todo :: scope in contexts <==> now < old(contexts)[scope].expires
        decreases |todo|
      {
        var scope :| scope in todo;
        if contexts[scope].expires <= now {
          contexts := contexts - {scope};
        }
        todo := todo - {scope};
      }
    }

    method ScopesWithJobs() returns (scopes: set<string>)
      ensures forall scope :: scope in scopes <==> HasJob(Queue(), scope)
    {
      scopes := {};
      var todo := jobs.Keys;
      while todo != {}
        invariant todo <= jobs.Keys
        invariant forall scope | scope in scopes :: exists id | id in jobs :: id.scope == scope
        invariant forall id | id in jobs && id !in todo :: id.scope in scopes
        decreases |todo|
      {
        var id :| id in todo;
        scopes, todo := scopes + {id.scope}, todo - {id};
      }
    }

    method DropUnused(scopes: set<string>)
      modifies this`served
      ensures served == map scope | scope in old(served) && scope in scopes :: old(served)[scope]
    {
      var todo := served.Keys;
      while todo != {}
        invariant todo <= served.Keys <= old(served).Keys
        invariant forall scope | scope in served :: served[scope] == old(served)[scope]
        invariant forall scope | scope in old(served) && scope !in todo :: scope in served <==> scope in scopes
        decreases |todo|
      {
        var scope :| scope in todo;
        if scope !in scopes {
          served := served - {scope};
        }
        todo := todo - {scope};
      }
    }

    method ExpireContexts(now: nat)
      modifies this`contexts, this`served
      ensures Queue() == Expire(old(Queue()), now)
    {
      DropExpired(now);
      var scopes := ScopesWithJobs();
      DropUnused(scopes);
    }

    method OldestContext() returns (oldest: string)
      requires contexts != map[]
      ensures IsOldest(contexts, oldest)
    {
      oldest :| oldest in contexts;
      var todo := contexts.Keys;
      while todo != {}
        invariant todo <= contexts.Keys && oldest in contexts
        invariant forall other | other in contexts && other !in todo :: contexts[oldest].expires <= contexts[other].expires
        decreases |todo|
      {
        var scope :| scope in todo;
        if contexts[scope].expires < contexts[oldest].expires {
          oldest := scope;
        }
        todo := todo - {scope};
      }
    }

    method Renew(now: nat, scope: string, credential: string)
      modifies this`contexts, this`contextVersion
      ensures Renewed(old(Queue()), now, scope, credential, Queue())
    {
      if scope !in contexts && |contexts| >= MAX_CONTEXTS {
        var oldest := OldestContext();
        contexts := contexts - {oldest};
      }
      contextVersion := contextVersion + 1;
      contexts := contexts[scope := Context(credential, now + CREDENTIAL_TTL, contextVersion)];
    }

    // ---- Jobs ----------------------------------------------------------------------------------

    method FindVictim() returns (victim: JobId)
      requires jobs != map[]
      ensures IsVictim(jobs, victim)
    {
      victim :| victim in jobs;
      var todo := jobs.Keys;
      while todo != {}
        invariant todo <= jobs.Keys && victim in jobs
        invariant forall other | other in jobs && other !in todo ::
                    jobs[victim].snap.priority < jobs[other].snap.priority ||
                    (jobs[victim].snap.priority == jobs[other].snap.priority && jobs[victim].observed <= jobs[other].observed)
        decreases |todo|
      {
        var id :| id in todo;
        if jobs[id].snap.priority < jobs[victim].snap.priority ||
           (jobs[id].snap.priority == jobs[victim].snap.priority && jobs[id].observed < jobs[victim].observed) {
          victim := id;
        }
        todo := todo - {id};
      }
    }

    method Insert(now: nat, key: string, snap: Snapshot, authorized: bool, ghost job: Job)
      requires job == Job(key, snap, now, now, 0, 0, authorized, sequence + 1)
      modifies this`jobs, this`sequence
      ensures Queue() == old(Queue()).(jobs := old(jobs)[snap.id := job], sequence := old(sequence) + 1)
    {
      sequence := sequence + 1;
      jobs := jobs[snap.id := Job(key, snap, now, now, 0, 0, authorized, sequence)];
    }

    method Enqueue(now: nat, key: string, snap: Snapshot, authorized: bool)
      requires ConfigOk(config)
      modifies this`jobs, this`sequence
      ensures Enqueued(old(Queue()), now, key, snap, authorized, Queue())
    {
      ghost var job := Job(key, snap, now, now, 0, 0, authorized, sequence + 1);
      if snap.id in jobs || |jobs| < config.maxTracked {
        Insert(now, key, snap, authorized, job);
      } else {
        var victim := FindVictim();
        if jobs[victim].snap.priority <= snap.priority {
          jobs := jobs - {victim};
          Insert(now, key, snap, authorized, job);
        }
        assert IsVictim(old(jobs), victim) && Queue() == InPlaceOf(old(Queue()), victim, job);
      }
    }

    method Track(now: nat, key: string, snap: Snapshot, credential: string, authorized: bool)
      requires Valid()
      modifies this`jobs, this`sequence, this`contexts, this`contextVersion, this`served
      ensures Valid() && Next(old(Queue()), Step.Track(now, key, snap, credential, authorized), Queue())
    {
      if Acceptable(key, snap, credential, authorized) && config.enabled {
        ExpireContexts(now);
        if authorized {
          Renew(now, snap.id.scope, credential);
        }
        Enqueue(now, key, snap, authorized);
      }
      TrackedKeeps(old(Queue()), now, key, snap, credential, authorized, Queue());
    }

    method DropScope(scope: string)
      modifies this`jobs
      ensures jobs == WithoutScope(old(jobs), scope)
    {
      var todo := jobs.Keys;
      while todo != {}
        invariant todo <= jobs.Keys <= old(jobs).Keys
        invariant forall id | id in jobs :: jobs[id] == old(jobs)[id]
        invariant forall id | id in old(jobs) && id !in todo :: id in jobs <==> id.scope != scope
        decreases |todo|
      {
        var id :| id in todo;
        if id.scope == scope {
          jobs := jobs - {id};
        }
        todo := todo - {id};
      }
    }

    method ForgetScope(scope: string)
      requires Valid()
      modifies this`jobs, this`contexts, this`served
      ensures Valid() && Queue() == Forget(old(Queue()), scope)
    {
      if scope != "" {
        contexts, served := contexts - {scope}, served - {scope};
        DropScope(scope);
      }
      NextKeeps(old(Queue()), Step.ForgetScope(scope), Queue());
    }

    method Trim(limit: nat)
      modifies this`jobs
      ensures Trimmed(old(jobs), limit, jobs)
    {
      while |jobs| > limit
        invariant forall t :: Trimmed(jobs, limit, t) ==> Trimmed(old(jobs), limit, t)
        decreases |jobs|
      {
        var victim := FindVictim();
        assert (jobs - {victim}).Keys == jobs.Keys - {victim};
        jobs := jobs - {victim};
      }
    }

    method Configure(c: Config) returns (ok: bool)
      requires Valid()
      modifies this`jobs, this`contexts, this`config
      ensures Valid() && Next(old(Queue()), Step.Configure(c), Queue()) && ok == ConfigOk(c)
    {
      hide JobsOk, ContextsOk, ServedOk, Trimmed;
      ok := ConfigOk(c);
      if ok {
        config := c;
        if !c.enabled {
          contexts := map[];
        }
        Trim(c.maxTracked);
      }
      ConfiguredKeeps(old(Queue()), c, Queue());
    }

    method SetPaused(p: bool)
      requires Valid()
      modifies this`paused
      ensures Valid() && Next(old(Queue()), Step.SetPaused(p), Queue())
    {
      paused := p;
    }

    method Foreground(begins: bool)
      requires Valid()
      modifies this`foreground
      ensures Valid() && Next(old(Queue()), if begins then BeginForeground else EndForeground, Queue())
    {
      foreground := if begins then foreground + 1 else foreground - 1;
    }

    // ---- Selection -----------------------------------------------------------------------------

    method Classify(v: View, id: JobId) returns (candidate: bool, unusable: bool)
      requires Valid() && id in jobs
      ensures candidate == IsCandidate(Queue(), v, id) && unusable == Unusable(Queue(), v, id)
    {
      var job := jobs[id];
      candidate, unusable := false, false;
      if v.now - job.last >= job.snap.ttl / 2 && v.now >= job.next && Made(v.perScope, id.scope) < config.maxPerScope {
        if id.scope in contexts && v.now < contexts[id.scope].expires {
          candidate := true;
        } else if !job.requiresContext && v.owner != "" && id.scope == v.ownerScope {
          candidate := true;
        } else {
          unusable := !job.requiresContext && v.ownerScope != "" && id.scope != v.ownerScope;
        }
      }
    }

    method Consider(v: View, id: JobId, reps: map<string, JobId>, unusable: set<JobId>, ghost seen: set<JobId>)
      returns (reps': map<string, JobId>, unusable': set<JobId>)
      requires Valid() && id in jobs && LeadersAmong(Queue(), v, seen, reps) && unusable == UnusableAmong(Queue(), v, seen)
      ensures LeadersAmong(Queue(), v, seen + {id}, reps') && unusable' == UnusableAmong(Queue(), v, seen + {id})
    {
      var candidate, never := Classify(v, id);
      reps', unusable' := reps, unusable;
      LeadersNext(Queue(), v, seen, reps, id);
      UnusableNext(Queue(), v, seen, id);
      if candidate {
        var better := IsBetter(reps, id, v);
        if better {
          reps' := reps[id.scope := id];
        }
      } else if never {
        unusable' := unusable + {id};
      }
    }

    /** The leading candidate of every scope, and the jobs that can never run. */
    method Survey(v: View) returns (reps: map<string, JobId>, unusable: set<JobId>)
      requires Valid()
      ensures Representatives(Queue(), v, reps)
      ensures unusable == UnusableAmong(Queue(), v, jobs.Keys)
    {
      hide LeadersAmong, UnusableAmong, Inv;
      reps, unusable := map[], {};
      var todo := jobs.Keys;
      ghost var q, seen: set<JobId> := Queue(), {};
      NothingSurveyed(q, v);
      while todo != {}
        invariant todo + seen == jobs.Keys && todo !! seen
        invariant unusable == UnusableAmong(q, v, seen) && LeadersAmong(q, v, seen, reps)
        decreases |todo|
      {
        var id :| id in todo;
        reps, unusable := Consider(v, id, reps, unusable, seen);
        MoveOne(jobs.Keys, todo, seen, id);
        todo, seen := todo - {id}, seen + {id};
      }
      assert seen == jobs.Keys;
    }

    method IsBetter(reps: map<string, JobId>, id: JobId, ghost v: View) returns (better: bool)
      requires id in jobs && LeadersAmong(Queue(), v, {}, reps)
      ensures better == Replaces(Queue(), reps, id)
    {
      better := true;
      if id.scope in reps {
        var rep := jobs[reps[id.scope]];
        better := jobs[id].snap.priority > rep.snap.priority || (jobs[id].snap.priority == rep.snap.priority && jobs[id].last < rep.last);
      }
    }

    method ServedOf(scope: string) returns (n: nat)
      ensures n == WarmQueue.Served(Queue(), scope)
    {
      n := if scope in served then served[scope] else 0;
    }

    method First(reps: map<string, JobId>) returns (first: string)
      requires |reps| != 0 && forall scope | scope in reps :: reps[scope] in jobs && reps[scope].scope == scope
      ensures first in reps && forall scope | scope in reps :: Before(Queue(), reps[first], reps[scope])
    {
      first :| first in reps;
      var todo := reps.Keys;
      while todo != {}
        invariant todo <= reps.Keys && first in reps
        invariant forall scope | scope in reps && scope !in todo :: Before(Queue(), reps[first], reps[scope])
        decreases |todo|
      {
        var scope :| scope in todo;
        var x := ServedOf(scope);
        var y := ServedOf(first);
        var a, b := jobs[reps[scope]], jobs[reps[first]];
        if x < y || (x == y && (a.snap.priority > b.snap.priority || (a.snap.priority == b.snap.priority && a.sequence < b.sequence))) {
          first := scope;
        }
        todo := todo - {scope};
      }
    }

    method Choose(v: View, reps: map<string, JobId>) returns (c: Candidate)
      requires Representatives(Queue(), v, reps) && |reps| != 0
      ensures Selects(Queue(), v, c)
    {
      var scope := First(reps);
      var id := reps[scope];
      if scope in contexts && v.now < contexts[scope].expires {
        c := Candidate(id, jobs[id], contexts[scope].token, contexts[scope].version, false);
      } else {
        c := Candidate(id, jobs[id], v.owner, 0, true);
      }
      assert c == CandidateOf(Queue(), v, id);
    }

    method Decide(v: View) returns (c: Option<Candidate>, unusable: set<JobId>)
      requires Valid()
      ensures Next(Queue(), Selection(v, c), AfterSelection(Queue(), c, unusable))
    {
      var reps;
      reps, unusable := Survey(v);
      c := None;
      if |reps| != 0 {
        var chosen := Choose(v, reps);
        c := Some(chosen);
      }
      SelectStep(Queue(), v, reps, unusable, c);
    }

    method NextCandidate(v: View) returns (c: Option<Candidate>)
      requires Valid()
      modifies this`jobs, this`picked
      ensures Valid() && Next(old(Queue()), Selection(v, c), Queue())
    {
      var unusable;
      c, unusable := Decide(v);
      NextKeeps(Queue(), Selection(v, c), AfterSelection(Queue(), c, unusable));
      jobs := jobs - unusable;
      picked := if c.Some? then Some(c.value.id.scope) else picked;
      assert Queue() == AfterSelection(old(Queue()), c, unusable);
    }

    // ---- A refresh pass --------------------------------------------------------------------------

    method Execute(step: Step)
      requires Valid() && Outside(step)
      modifies this`jobs, this`sequence, this`contexts, this`contextVersion, this`served, this`config, this`paused, this`foreground
      ensures Valid() && Next(old(Queue()), step, Queue())
      ensures !step.Configure? ==> config == old(config)
    {
      match step
      case Track(now, key, snap, credential, authorized) => Track(now, key, snap, credential, authorized);
      case ForgetScope(scope) => ForgetScope(scope);
      case Configure(c) => var _ := Configure(c);
      case SetPaused(p) => SetPaused(p);
      case BeginForeground => Foreground(true);
      case EndForeground => Foreground(false);
    }

    method ExecuteAll(steps: seq<Step>)
      requires Valid() && forall i | 0 <= i < |steps| :: Outside(steps[i])
      modifies this`jobs, this`sequence, this`contexts, this`contextVersion, this`served, this`config, this`paused, this`foreground
      ensures Valid() && Run(old(Queue()), steps, Queue())
      ensures (forall i | 0 <= i < |steps| :: !steps[i].Configure?) ==> config == old(config)
    {
      hide JobsOk, ContextsOk, ServedOk, Next;
      for i := 0 to |steps|
        invariant Valid() && Run(old(Queue()), steps[..i], Queue())
        invariant (forall j | 0 <= j < |steps| :: !steps[j].Configure?) ==> config == old(config)
      {
        ghost var q := Queue();
        Execute(steps[i]);
        RunOn(old(Queue()), steps[..i], q, steps[i], Queue());
        assert steps[..i] + [steps[i]] == steps[..i + 1];
      }
      assert steps[..|steps|] == steps;
    }

    /** Runs what the other requests do at this point. */
    method Interleave(others: seq<seq<Step>>) returns (ghost trace: seq<Step>)
      requires Valid() && AllOutside(others)
      modifies this`jobs, this`sequence, this`contexts, this`contextVersion, this`served, this`config, this`paused, this`foreground
      ensures Valid() && Run(old(Queue()), trace, Queue())
      ensures trace == Head(others) && Account(trace) == Ledger(Head(others), [], [])
      ensures others == [] ==> Queue() == old(Queue())
      ensures LeavesConfig(others) ==> config == old(config)
    {
      hide JobsOk, ContextsOk, ServedOk;
      trace := Head(others);
      AccountOutside(trace);
      if others != [] {
        ExecuteAll(others[0]);
      }
    }

    method Permitted(c: Candidate, now: nat) returns (ok: bool)
      ensures ok == Permit(Queue(), c, now)
    {
      ok := c.id in jobs && jobs[c.id].sequence == c.job.sequence && foreground <= 0 && !paused && config.enabled;
      if ok && !c.owner {
        var scope := c.id.scope;
        ok := scope in contexts && contexts[scope].version == c.version && now < contexts[scope].expires;
      }
    }

    /** The permit check, as a step of its own. */
    method CheckPermit(c: Candidate, now: nat) returns (ok: bool, ghost trace: seq<Step>)
      requires Valid()
      modifies this`cleared
      ensures Valid() && Run(old(Queue()), trace, Queue()) && Account(trace) == EMPTY
      ensures ok == Permit(old(Queue()), c, now) && trace == if ok then [Check(c, now)] else []
      ensures ok ==> cleared == Some(c) && foreground <= 0 && !paused && config.enabled
      ensures ok && !c.owner ==> c.id.scope in contexts && contexts[c.id.scope].version == c.version && now < contexts[c.id.scope].expires
    {
      trace := [];
      ok := Permitted(c, now);
      if ok {
        cleared := Some(c);
        trace := [Check(c, now)];
        AccountOne(Check(c, now));
        RunOne(old(Queue()), Check(c, now), Queue());
      }
    }

    /** The write to the cache, which nothing holds back any more. */
    method StoreBody(ghost c: Candidate) returns (ghost trace: seq<Step>)
      requires Valid() && cleared == Some(c)
      modifies this`cleared
      ensures Valid() && Run(old(Queue()), trace, Queue()) && Account(trace) == EMPTY && trace == [Store(c)]
    {
      cleared, trace := None, [Store(c)];
      AccountOne(Store(c));
      RunOne(old(Queue()), Store(c), Queue());
    }

    /** Fetches the job's response and checks the permit. */
    method FetchAndCheck(c: Candidate, others: seq<seq<Step>>)
      returns (n: nat, rejected: bool, permitted: bool, ghost now: nat, ghost trace: seq<Step>)
      requires Valid() && AllOutside(others)
      modifies this`jobs, this`sequence, this`contexts, this`contextVersion, this`served, this`config, this`paused, this`foreground, this`cleared
      ensures Valid() && Run(old(Queue()), trace, Queue()) && Account(trace) == Ledger(Head(others), [], [])
      ensures LeavesConfig(others) ==> config == old(config)
      ensures n <= MAX_ENTRY_BYTES + 1 && (permitted ==> !rejected && n <= MAX_ENTRY_BYTES && cleared == Some(c))
      ensures trace == Head(others) + if permitted then [Check(c, now)] else []
    {
      hide JobsOk, ContextsOk, ServedOk, Run, Account, Permit;
      n :| 0 <= n <= MAX_ENTRY_BYTES + 1;
      var fetched, keyIsCurrent, at: nat := *, *, *;
      rejected, permitted, now := *, false, at;
      trace := Interleave(others);
      if fetched && !rejected && n <= MAX_ENTRY_BYTES && keyIsCurrent {
        ghost var q, more := Queue(), [];
        permitted, more := CheckPermit(c, at);
        RunThen(old(Queue()), trace, q, more, Queue());
        AccountUnmarked(trace, more);
        trace := trace + more;
      }
    }

    /** Stores a permitted body, unless the cache refuses it. */
    method StoreSection(c: Candidate, permitted: bool, others: seq<seq<Step>>) returns (stored: bool, ghost trace: seq<Step>)
      requires Valid() && AllOutside(others) && (permitted ==> cleared == Some(c))
      modifies this`jobs, this`sequence, this`contexts, this`contextVersion, this`served, this`config, this`paused, this`foreground, this`cleared
      ensures Valid() && Run(old(Queue()), trace, Queue()) && Account(trace) == Ledger(Head(others), [], [])
      ensures LeavesConfig(others) ==> config == old(config)
      ensures (stored ==> permitted) && trace == Head(others) + if stored then [Store(c)] else []
    {
      hide JobsOk, ContextsOk, ServedOk, Run, Account;
      trace := Interleave(others);
      var accepts := *;
      stored := accepts && permitted;
      if stored {
        ghost var q, more := Queue(), [];
        more := StoreBody(c);
        RunThen(old(Queue()), trace, q, more, Queue());
        AccountUnmarked(trace, more);
        trace := trace + more;
      }
    }

    /** Fetches, checks the permit and stores. Other requests get their turn before the check, and
        between it and the store. */
    method RefreshChecked(c: Candidate, others: seq<seq<Step>>)
      returns (n: nat, outcome: Outcome, ghost checked: bool, ghost now: nat, ghost trace: seq<Step>)
      requires Valid() && AllOutside(others)
      modifies this`jobs, this`sequence, this`contexts, this`contextVersion, this`served, this`config, this`paused, this`foreground, this`cleared
      ensures Valid() && Run(old(Queue()), trace, Queue())
      ensures LeavesConfig(others) ==> config == old(config)
      ensures n <= MAX_ENTRY_BYTES + 1 && (outcome.Refreshed? ==> n <= MAX_ENTRY_BYTES)
      ensures (outcome.Refreshed? ==> checked) && trace == Refreshing(c, now, others, checked, outcome.Refreshed?)
      ensures Account(trace) == Ledger(Head(others) + Head(Rest(others)), [], [])
    {
      hide JobsOk, ContextsOk, ServedOk, Run, Account;
      var rejected, permitted, stored;
      n, rejected, permitted, now, trace := FetchAndCheck(c, others);
      ghost var q, more := Queue(), [];
      RestKeeps(others);
      stored, more := StoreSection(c, permitted, Rest(others));
      RunThen(old(Queue()), trace, q, more, Queue());
      AccountThen(trace, more);
      outcome := if stored then Refreshed else if rejected then Unauthorized else Errored;
      trace, checked := trace + more, permitted;
    }

    method FinishJob(c: Candidate, outcome: Outcome, now: nat)
      requires Valid()
      modifies this`jobs, this`contexts, this`cleared
      ensures Valid() && Queue() == Finish(old(Queue()), c, outcome, now)
    {
      hide JobsOk, ContextsOk, ServedOk;
      cleared := None;
      if outcome.Unauthorized? {
        contexts := contexts - {c.id.scope};
        DropScope(c.id.scope);
      }
      if c.id in jobs && jobs[c.id].sequence == c.job.sequence {
        jobs := jobs[c.id := Finished(jobs[c.id], outcome, now)];
      }
      FinishKeeps(old(Queue()), c, outcome, now);
    }

    /** One section of a pass: drop what expired and select the next job. */
    method SelectSection(owner: string, ownerScope: string, perScope: map<string, nat>) returns (c: Option<Candidate>, ghost trace: seq<Step>)
      requires Valid()
      modifies this`jobs, this`contexts, this`served, this`picked
      ensures Valid() && Run(old(Queue()), trace, Queue())
      ensures |jobs| <= |old(jobs)| && Account(trace) == EMPTY
      ensures c.Some? ==> c.value.id in jobs && picked == Some(c.value.id.scope) && Made(perScope, c.value.id.scope) < config.maxPerScope
    {
      hide JobsOk, ContextsOk, ServedOk, Run, Selects, IsCandidate, Sifted, Expire;
      var now: nat, later: nat := *, *;
      ExpireContexts(now);
      ghost var q := Queue();
      ExpireKeeps(old(Queue()), now);
      RunOne(old(Queue()), Step.ExpireContexts(now), q);
      trace := [Step.ExpireContexts(now)];
      AccountOne(Step.ExpireContexts(now));
      c := None;
      if foreground <= 0 && !paused && config.enabled {
        var v := View(later, owner, ownerScope, perScope);
        c := NextCandidate(v);
        SelectionEffect(q, v, c, Queue());
        RunOn(old(Queue()), trace, q, Selection(v, c), Queue());
        AccountUnmarked(trace, [Selection(v, c)]);
        AccountOne(Selection(v, c));
        trace := trace + [Selection(v, c)];
      }
    }

    /** A job whose key is no longer current is dropped. */
    method DropStale(id: JobId) returns (ghost trace: seq<Step>)
      requires Valid()
      modifies this`jobs, this`picked
      ensures Valid() && Run(old(Queue()), trace, Queue())
      ensures jobs == old(jobs) - {id} && Account(trace) == EMPTY
    {
      hide JobsOk, ContextsOk, ServedOk, Run;
      jobs, picked := jobs - {id}, None;
      trace := [DropJob(id)];
      AccountOne(DropJob(id));
      NextKeeps(old(Queue()), DropJob(id), Queue());
      RunOne(old(Queue()), DropJob(id), Queue());
    }

    /** Reads the key of the selected job again: a job whose key changed is dropped, and a failure to
        read it ends the pass. */
    method Confirm(c: Candidate, others: seq<seq<Step>>) returns (kept: bool, done: bool, ghost trace: seq<Step>)
      requires Valid() && AllOutside(others)
      modifies this`jobs, this`sequence, this`contexts, this`contextVersion, this`served, this`config, this`paused, this`foreground, this`picked
      ensures Valid() && Run(old(Queue()), trace, Queue()) && Account(trace) == Ledger(Head(others), [], [])
      ensures LeavesConfig(others) ==> config == old(config)
      ensures others == [] ==> config == old(config) && |jobs| <= |old(jobs)|
      ensures kept ==> !done && picked == old(picked)
      ensures others == [] && !kept && !done && c.id in old(jobs) ==> |jobs| < |old(jobs)|
    {
      hide JobsOk, ContextsOk, ServedOk, Run;
      trace := Interleave(others);
      kept, done := true, false;
      if * {
        ghost var q, more := Queue(), [];
        assert (jobs - {c.id}).Keys == jobs.Keys - {c.id};
        more := DropStale(c.id);
        RunThen(old(Queue()), trace, q, more, Queue());
        AccountUnmarked(trace, more);
        kept, trace := false, trace + more;
      } else if * {
        kept, done := false, true;
      }
    }

    /** The first half of an iteration. Neither done nor selected: a stale job was dropped. */
    method PickJob(owner: string, ownerScope: string, perScope: map<string, nat>, others: seq<seq<Step>>, ghost limits: Config)
      returns (c: Option<Candidate>, done: bool, ghost trace: seq<Step>)
      requires Valid() && AllOutside(others) && Binding(limits, config, others)
      modifies this`jobs, this`sequence, this`contexts, this`contextVersion, this`served, this`config, this`paused, this`foreground, this`picked
      ensures Valid() && Run(old(Queue()), trace, Queue()) && Binding(limits, config, others)
      ensures Account(trace) == Ledger(Head(others), [], []) || (done && Account(trace) == EMPTY)
      ensures others == [] && !done ==> config == old(config) && |jobs| <= |old(jobs)|
      ensures others == [] && !done && c.None? ==> |jobs| < |old(jobs)|
      ensures c.Some? ==> !done && picked == Some(c.value.id.scope) && Made(perScope, c.value.id.scope) < limits.maxPerScope
    {
      hide JobsOk, ContextsOk, ServedOk, Run, Account;
      c, trace := SelectSection(owner, ownerScope, perScope);
      done := c.None?;
      if !done {
        ghost var q, more := Queue(), [];
        var kept;
        kept, done, more := Confirm(c.value, others);
        RunThen(old(Queue()), trace, q, more, Queue());
        AccountUnmarked(trace, more);
        trace := trace + more;
        c := if kept then c else None;
      }
    }

    /** Stamps the scope of the selected job. */
    method StampSection(scope: string) returns (ok: bool, ghost trace: seq<Step>)
      requires Valid() && picked == Some(scope)
      modifies this`served, this`servedSequence, this`picked
      ensures Valid() && Run(old(Queue()), trace, Queue())
      ensures ok == Warming(old(Queue())) && trace == if ok then [Stamp(scope)] else []
      ensures Queue() == if ok then Stamped(old(Queue()), scope) else old(Queue())
    {
      hide Inv, Run;
      ok, trace := foreground <= 0 && !paused && config.enabled, [];
      if ok {
        servedSequence := servedSequence + 1;
        served, picked := served[scope := servedSequence], None;
        trace := [Stamp(scope)];
        StampKeeps(old(Queue()), scope);
      }
      RunStamp(old(Queue()), scope, Queue(), ok);
    }

    /** Fetches, stores if permitted, and books the result. */
    method Refresh(c: Candidate, others: seq<seq<Step>>) returns (n: nat, ghost trace: seq<Step>)
      requires Valid() && AllOutside(others)
      modifies this`jobs, this`sequence, this`contexts, this`contextVersion, this`served, this`config, this`paused, this`foreground, this`cleared
      ensures Valid() && Run(old(Queue()), trace, Queue())
      ensures LeavesConfig(others) ==> config == old(config)
      ensures n <= MAX_ENTRY_BYTES + 1
      ensures Account(trace) == Ledger(Head(others) + Head(Rest(others)), [], [Fetch(c.id.scope, n)])
    {
      hide JobsOk, ContextsOk, ServedOk, Run;
      var outcome;
      ghost var at, checked;
      n, outcome, checked, at, trace := RefreshChecked(c, others);
      ghost var q := Queue();
      var now: nat := *;
      FinishJob(c, outcome, now);
      ghost var end := FinishRefresh(c, outcome, now, n);
      RunOn(old(Queue()), trace, q, end, Queue());
      AccountThen(trace, [end]);
      AccountOne(end);
      trace := trace + [end];
    }

    method StampAndRefresh(c: Candidate, tally: Tally, others: seq<seq<Step>>, ghost limits: Config)
      returns (tally': Tally, done: bool, ghost trace: seq<Step>)
      requires Valid() && AllOutside(others) && Binding(limits, config, others) && picked == Some(c.id.scope)
      requires WithinLimits(tally, limits) && tally.requests < limits.requestsPerPass
      requires tally.used + MAX_ENTRY_BYTES + 1 <= limits.bytesPerPass && Made(tally.perScope, c.id.scope) < limits.maxPerScope
      modifies this`jobs, this`sequence, this`contexts, this`contextVersion, this`served, this`servedSequence, this`config, this`paused, this`foreground, this`picked, this`cleared
      ensures Valid() && Run(old(Queue()), trace, Queue()) && Binding(limits, config, others)
      ensures WithinLimits(tally', limits) && (!done ==> tally'.requests == tally.requests + 1)
      ensures Accounts(trace, tally, tally', others, Rest(Rest(others)), done)
    {
      hide JobsOk, ContextsOk, ServedOk, Run, Accounts;
      var ok;
      ghost var q, more := Queue(), [];
      ok, trace := StampSection(c.id.scope);
      q := Queue();
      tally', done := tally, !ok;
      if ok {
        var n;
        n, more := Refresh(c, others);
        RunThen(old(Queue()), trace, q, more, Queue());
        AccountsRefresh(c.id.scope, more, tally, others, n);
        trace := trace + more;
        tally' := Added(tally, Fetch(c.id.scope, n));
      } else {
        AccountsNothing([], tally, others);
      }
    }

    /** The second half of an iteration. */
    method RunJob(c: Candidate, tally: Tally, others: seq<seq<Step>>, ghost limits: Config)
      returns (tally': Tally, done: bool, ghost trace: seq<Step>)
      requires Valid() && AllOutside(others) && Binding(limits, config, others) && picked == Some(c.id.scope)
      requires WithinLimits(tally, limits) && tally.requests < limits.requestsPerPass
      requires tally.used + MAX_ENTRY_BYTES + 1 <= limits.bytesPerPass && Made(tally.perScope, c.id.scope) < limits.maxPerScope
      modifies this`jobs, this`sequence, this`contexts, this`contextVersion, this`served, this`servedSequence, this`config, this`paused, this`foreground, this`picked, this`cleared
      ensures Valid() && Run(old(Queue()), trace, Queue()) && Binding(limits, config, others)
      ensures WithinLimits(tally', limits) && (!done ==> tally'.requests == tally.requests + 1)
      ensures Accounts(trace, tally, tally', others, Rest(Rest(Rest(others))), done)
    {
      hide JobsOk, ContextsOk, ServedOk, Run, Accounts, Account;
      trace := Interleave(others);
      AccountsOthers(trace, tally, others);
      ghost var q, more := Queue(), [];
      tally', done, more := StampAndRefresh(c, tally, Rest(others), limits);
      RunThen(old(Queue()), trace, q, more, Queue());
      AccountsThen(trace, more, tally, tally, tally', others, Rest(others), Rest(Rest(Rest(others))), done);
      trace := trace + more;
    }

    /** A pass stays within the limits in force, whatever other requests do meanwhile, and ends. */
    method RefreshPass(others: seq<seq<Step>>) returns (tally: Tally, ghost trace: seq<Step>)
      requires Valid() && AllOutside(others)
      modifies this
      ensures Valid() && Run(old(Queue()), trace, Queue()) && running == old(running)
      ensures WithinLimits(tally, ABSOLUTE_LIMITS)
      ensures LeavesConfig(others) ==> WithinLimits(tally, old(config))
      ensures old(running) || old(foreground) > 0 || old(paused) || !old(config).enabled ==> trace == [] && Queue() == old(Queue())
      ensures Tallies(tally, Account(trace).refreshes)
      ensures Account(trace).stamps == ScopesOf(Account(trace).refreshes) && Account(trace).others <= Flatten(others)
    {
      hide JobsOk, ContextsOk, ServedOk, Accounts;
      tally, trace := NOTHING, [];
      AccountsNothing([], tally, others);
      PassTally([], tally, others, others, false);
      if running || foreground > 0 || paused || !config.enabled {
        return;
      }
      running := true;
      var owner: string, ownerScope: string := *, *;
      ghost var limits := if LeavesConfig(others) then config else ABSOLUTE_LIMITS;
      var rest, done := others, false;
      while !done
        invariant Valid() && Run(old(Queue()), trace, Queue()) && AllOutside(rest) && Binding(limits, config, rest)
        invariant WithinLimits(tally, limits) && Accounts(trace, NOTHING, tally, others, rest, done)
        decreases !done, |rest|, limits.requestsPerPass - tally.requests, |jobs|
      {
        ghost var q, more, was, left := Queue(), [], tally, rest;
        tally, rest, done, more := Iterate(owner, ownerScope, tally, rest, limits);
        RunThen(old(Queue()), trace, q, more, Queue());
        AccountsThen(trace, more, NOTHING, was, tally, others, left, rest, done);
        trace := trace + more;
      }
      PassTally(trace, tally, others, rest, done);
      running := false;
    }

    method Iterate(owner: string, ownerScope: string, tally: Tally, others: seq<seq<Step>>, ghost limits: Config)
      returns (tally': Tally, rest: seq<seq<Step>>, done: bool, ghost trace: seq<Step>)
      requires Valid() && AllOutside(others) && Binding(limits, config, others) && WithinLimits(tally, limits)
      modifies this`jobs, this`sequence, this`contexts, this`contextVersion, this`served, this`servedSequence, this`config, this`paused, this`foreground, this`picked, this`cleared
      ensures Valid() && AllOutside(rest) && Binding(limits, config, rest) && WithinLimits(tally', limits)
      ensures Run(old(Queue()), trace, Queue()) && Accounts(trace, tally, tally', others, rest, done)
      ensures !done ==> |rest| < |others| || (rest == others && (tally'.requests > tally.requests || (tally' == tally && |jobs| < |old(jobs)|)))
    {
      hide JobsOk, ContextsOk, ServedOk, Accounts;
      tally', rest, trace := tally, others, [];
      done := tally.requests >= config.requestsPerPass || config.bytesPerPass - tally.used < MAX_ENTRY_BYTES + 1;
      AccountsNothing([], tally, others);
      if !done {
        trace := Interleave(others);
        AccountsOthers(trace, tally, others);
        RestKeeps(others);
        ghost var q, more := Queue(), [];
        tally', rest, done, more := Serve(owner, ownerScope, tally, Rest(others), limits);
        RunThen(old(Queue()), trace, q, more, Queue());
        AccountsThen(trace, more, tally, tally, tally', others, Rest(others), rest, done);
        trace := trace + more;
      }
      AccountsEnd(trace, tally, tally', others, rest, done);
      if * {
        done := true;
      }
    }

    method Serve(owner: string, ownerScope: string, tally: Tally, others: seq<seq<Step>>, ghost limits: Config)
      returns (tally': Tally, rest: seq<seq<Step>>, done: bool, ghost trace: seq<Step>)
      requires Valid() && AllOutside(others) && Binding(limits, config, others) && WithinLimits(tally, limits)
      requires tally.requests < limits.requestsPerPass && tally.used + MAX_ENTRY_BYTES + 1 <= limits.bytesPerPass
      modifies this`jobs, this`sequence, this`contexts, this`contextVersion, this`served, this`servedSequence, this`config, this`paused, this`foreground, this`picked, this`cleared
      ensures Valid() && AllOutside(rest) && Binding(limits, config, rest) && WithinLimits(tally', limits)
      ensures Run(old(Queue()), trace, Queue()) && Accounts(trace, tally, tally', others, rest, done)
      ensures |rest| <= |others|
      ensures !done ==> tally'.requests > tally.requests || (tally' == tally && (others == [] ==> |jobs| < |old(jobs)|))
    {
      hide JobsOk, ContextsOk, ServedOk, Run, Accounts, Account;
      var c;
      c, done, trace := PickJob(owner, ownerScope, tally.perScope, others, limits);
      tally', rest := tally, Rest(others);
      RestKeeps(others);
      AccountsPick(trace, tally, others, done);
      if c.Some? {
        ghost var q, more := Queue(), [];
        tally', done, more := RunJob(c.value, tally, rest, limits);
        RunThen(old(Queue()), trace, q, more, Queue());
        AccountsThen(trace, more, tally, tally, tally', others, rest, Rest(Rest(Rest(rest))), done);
        trace := trace + more;
        RestKeeps(rest);
        rest := Rest(rest);
        RestKeeps(rest);
        rest := Rest(rest);
        RestKeeps(rest);
        rest := Rest(rest);
      }
    }
  }
}
