/** The warmer's queue as a state machine. Every section that holds the mutex is one step, so the
    runs of this machine are all interleavings of foreground requests with a refresh pass. */
module WarmQueue {
  import opened Basics

  const MAX_TRACKED := 512
  const MAX_CONTEXTS := 32
  const SECOND := 1_000_000_000
  const CREDENTIAL_TTL := 120 * SECOND
  const MIB := 1_048_576
  const MAX_ENTRY_BYTES := 2 * MIB
  const PROTECTED := 3

  /** Identifies a job: the digest of these five fields, taken as injective. */
  datatype JobId = JobId(scope: string, verb: string, path: string, query: string, accept: string)

  /** query carries no secrets, and priority is the one the route gives when none was set. */
  datatype Snapshot = Snapshot(id: JobId, kind: string, ttl: int, priority: int)

  /** next is 0 while the job is not backing off. */
  datatype Job = Job(key: string, snap: Snapshot, last: nat, observed: nat, next: nat, failures: nat, requiresContext: bool, sequence: nat)

  datatype Context = Context(token: string, expires: nat, version: nat)

  datatype Config = Config(enabled: bool, maxTracked: int, requestsPerPass: int, maxPerScope: int, bytesPerPass: int)

  const DEFAULT_CONFIG := Config(true, 512, 16, 4, 64 * MIB)

  predicate ConfigOk(c: Config) {
    && 1 <= c.maxTracked <= MAX_TRACKED && 1 <= c.requestsPerPass <= 64
    && 1 <= c.maxPerScope <= 16 && c.maxPerScope <= c.requestsPerPass
    && 8 * MIB <= c.bytesPerPass <= 256 * MIB
  }

  /** picked is the scope a pass has selected and not yet stamped; cleared is the refresh that passed
      its permit check and has not stored yet. */
  datatype State = State(
    jobs: map<JobId, Job>, sequence: nat,
    contexts: map<string, Context>, contextVersion: nat,
    served: map<string, nat>, servedSequence: nat, picked: Option<string>, cleared: Option<Candidate>,
    config: Config, paused: bool, foreground: int)

  const INITIAL := State(map[], 0, map[], 0, map[], 0, None, None, DEFAULT_CONFIG, false, 0)

  /** A selected refresh: the job as it was then, and the credential it will use. */
  datatype Candidate = Candidate(id: JobId, job: Job, token: string, version: nat, owner: bool)

  predicate Warming(s: State) {
    s.foreground <= 0 && !s.paused && s.config.enabled
  }

  function Served(s: State, scope: string): nat {
    if scope in s.served then s.served[scope] else 0
  }

  predicate HasJob(s: State, scope: string) {
    exists id | id in s.jobs :: id.scope == scope
  }

  // ---- Sections --------------------------------------------------------------------------

  /** Drops expired credentials and the stamps of scopes without jobs. */
  function Expire(s: State, now: nat): State {
    s.(contexts := map scope | scope in s.contexts && now < s.contexts[scope].expires :: s.contexts[scope],
       served := map scope | scope in s.served && HasJob(s, scope) :: s.served[scope])
  }

  predicate Acceptable(key: string, snap: Snapshot, credential: string, authorized: bool) {
    && 0 < |key| <= 512 && 0 < |snap.id.scope| <= 256 && |snap.id.path| <= 4096 && |snap.id.query| <= 8192
    && |snap.id.accept| <= 512 && snap.ttl > 0 && (authorized ==> 0 < |credential| <= 8192)
    && 0 <= snap.priority <= PROTECTED
  }

  /** The victim is a job of lowest priority and, among those, least recently observed. */
  ghost predicate IsVictim(jobs: map<JobId, Job>, id: JobId) {
    && id in jobs
    && forall other | other in jobs ::
         jobs[id].snap.priority < jobs[other].snap.priority ||
         (jobs[id].snap.priority == jobs[other].snap.priority && jobs[id].observed <= jobs[other].observed)
  }

  ghost predicate IsOldest(contexts: map<string, Context>, scope: string) {
    scope in contexts && forall other | other in contexts :: contexts[scope].expires <= contexts[other].expires
  }

  /** Stores a credential, making room by dropping the one that expires first. */
  ghost predicate Renewed(s: State, now: nat, scope: string, credential: string, t: State) {
    && t == s.(contexts := t.contexts, contextVersion := s.contextVersion + 1)
    && var renewed := Context(credential, now + CREDENTIAL_TTL, s.contextVersion + 1);
       if scope in s.contexts || |s.contexts| < MAX_CONTEXTS then t.contexts == s.contexts[scope := renewed]
       else exists oldest :: IsOldest(s.contexts, oldest) && t.contexts == (s.contexts - {oldest})[scope := renewed]
  }

  /** Adds a job, making room by dropping a victim; a more important victim refuses the newcomer. */
  ghost predicate Enqueued(s: State, now: nat, key: string, snap: Snapshot, authorized: bool, t: State) {
    var job := Job(key, snap, now, now, 0, 0, authorized, s.sequence + 1);
    if snap.id in s.jobs || |s.jobs| < s.config.maxTracked then t == s.(jobs := s.jobs[snap.id := job], sequence := s.sequence + 1)
    else exists victim :: IsVictim(s.jobs, victim) && t == InPlaceOf(s, victim, job)
  }

  function InPlaceOf(s: State, victim: JobId, job: Job): State
    requires victim in s.jobs
  {
    if s.jobs[victim].snap.priority > job.snap.priority then s
    else s.(jobs := (s.jobs - {victim})[job.snap.id := job], sequence := s.sequence + 1)
  }

  ghost predicate Tracked(s: State, now: nat, key: string, snap: Snapshot, credential: string, authorized: bool, t: State) {
    if !Acceptable(key, snap, credential, authorized) || !s.config.enabled then t == s
    else if !authorized then Enqueued(Expire(s, now), now, key, snap, false, t)
    else exists u :: Renewed(Expire(s, now), now, snap.id.scope, credential, u) && Enqueued(u, now, key, snap, true, t)
  }

  function WithoutScope(jobs: map<JobId, Job>, scope: string): map<JobId, Job> {
    map id | id in jobs && id.scope != scope :: jobs[id]
  }

  function Forget(s: State, scope: string): State {
    if scope == "" then s
    else s.(jobs := WithoutScope(s.jobs, scope), contexts := s.contexts - {scope}, served := s.served - {scope})
  }

  /** Only victims are dropped, one after the other, until the jobs fit. */
  ghost predicate Trimmed(jobs: map<JobId, Job>, limit: int, t: map<JobId, Job>)
    requires 0 <= limit
    decreases |jobs|
  {
    if |jobs| <= limit then t == jobs
    else exists victim :: IsVictim(jobs, victim) && Trimmed(jobs - {victim}, limit, t)
  }

  ghost predicate Configured(s: State, c: Config, t: State) {
    if !ConfigOk(c) then t == s
    else t == s.(config := c, contexts := if c.enabled then s.contexts else map[], jobs := t.jobs) && Trimmed(s.jobs, c.maxTracked, t.jobs)
  }

  /** What a selection looks at besides the queue. owner is empty while no owner token is known. */
  datatype View = View(now: nat, owner: string, ownerScope: string, perScope: map<string, nat>)

  function Made(perScope: map<string, nat>, scope: string): nat {
    if scope in perScope then perScope[scope] else 0
  }

  predicate Due(s: State, v: View, job: Job) {
    v.now - job.last >= job.snap.ttl / 2 && v.now >= job.next && Made(v.perScope, job.snap.id.scope) < s.config.maxPerScope
  }

  predicate HasContext(s: State, v: View, scope: string) {
    scope in s.contexts && v.now < s.contexts[scope].expires
  }

  predicate ForOwner(v: View, job: Job) {
    !job.requiresContext && v.owner != "" && job.snap.id.scope == v.ownerScope
  }

  predicate IsCandidate(s: State, v: View, id: JobId) {
    id in s.jobs && Due(s, v, s.jobs[id]) && (HasContext(s, v, id.scope) || ForOwner(v, s.jobs[id]))
  }

  function CandidateOf(s: State, v: View, id: JobId): Candidate
    requires id in s.jobs && (HasContext(s, v, id.scope) || ForOwner(v, s.jobs[id]))
  {
    if HasContext(s, v, id.scope) then Candidate(id, s.jobs[id], s.contexts[id.scope].token, s.contexts[id.scope].version, false)
    else Candidate(id, s.jobs[id], v.owner, 0, true)
  }

  /** A due job of another scope than the owner's, tracked without a credential, can never run. */
  predicate Unusable(s: State, v: View, id: JobId) {
    && id in s.jobs && Due(s, v, s.jobs[id]) && !HasContext(s, v, id.scope) && !s.jobs[id].requiresContext
    && v.ownerScope != "" && id.scope != v.ownerScope
  }

  function Sifted(s: State, v: View): State {
    s.(jobs := map id | id in s.jobs && !Unusable(s, v, id) :: s.jobs[id])
  }

  ghost function UnusableAmong(s: State, v: View, seen: set<JobId>): set<JobId> {
    set id | id in seen && Unusable(s, v, id)
  }

  lemma NothingSurveyed(s: State, v: View)
    ensures UnusableAmong(s, v, {}) == {} && LeadersAmong(s, v, {}, map[])
  {
  }

  lemma UnusableNext(s: State, v: View, seen: set<JobId>, id: JobId)
    ensures UnusableAmong(s, v, seen + {id}) == UnusableAmong(s, v, seen) + if Unusable(s, v, id) then {id} else {}
  {
  }

  /** Within a scope: highest priority, then longest since its last refresh. */
  predicate Leads(s: State, a: JobId, b: JobId)
    requires a in s.jobs && b in s.jobs
  {
    s.jobs[a].snap.priority > s.jobs[b].snap.priority ||
    (s.jobs[a].snap.priority == s.jobs[b].snap.priority && s.jobs[a].last <= s.jobs[b].last)
  }

  /** One candidate for each scope that has any among the jobs seen, and a leading one. */
  ghost predicate LeadersAmong(s: State, v: View, seen: set<JobId>, reps: map<string, JobId>) {
    && (forall scope | scope in reps :: IsCandidate(s, v, reps[scope]) && reps[scope].scope == scope)
    && (forall id | id in seen && IsCandidate(s, v, id) :: id.scope in reps && Leads(s, reps[id.scope], id))
  }

  ghost predicate Representatives(s: State, v: View, reps: map<string, JobId>) {
    LeadersAmong(s, v, s.jobs.Keys, reps)
  }

  predicate Replaces(s: State, reps: map<string, JobId>, id: JobId)
    requires id in s.jobs && (id.scope in reps ==> reps[id.scope] in s.jobs)
  {
    id.scope !in reps || !Leads(s, reps[id.scope], id)
  }

  lemma LeadersNext(s: State, v: View, seen: set<JobId>, reps: map<string, JobId>, id: JobId)
    requires LeadersAmong(s, v, seen, reps) && id in s.jobs
    ensures !IsCandidate(s, v, id) ==> LeadersAmong(s, v, seen + {id}, reps)
    ensures IsCandidate(s, v, id) && Replaces(s, reps, id) ==> LeadersAmong(s, v, seen + {id}, reps[id.scope := id])
    ensures IsCandidate(s, v, id) && !Replaces(s, reps, id) ==> LeadersAmong(s, v, seen + {id}, reps)
  {
  }

  /** Across scopes: least recently served, then highest priority, then first tracked. */
  predicate Before(s: State, a: JobId, b: JobId)
    requires a in s.jobs && b in s.jobs
  {
    var x, y := Served(s, a.scope), Served(s, b.scope);
    x < y || (x == y && (s.jobs[a].snap.priority > s.jobs[b].snap.priority ||
                         (s.jobs[a].snap.priority == s.jobs[b].snap.priority && s.jobs[a].sequence <= s.jobs[b].sequence)))
  }

  ghost predicate Selects(s: State, v: View, c: Candidate) {
    && IsCandidate(s, v, c.id) && c == CandidateOf(s, v, c.id)
    && exists reps: map<string, JobId> :: Representatives(s, v, reps) && c.id.scope in reps && reps[c.id.scope] == c.id &&
         forall scope | scope in reps :: Before(s, c.id, reps[scope])
  }

  ghost function AfterSelection(s: State, c: Option<Candidate>, unusable: set<JobId>): State {
    s.(jobs := s.jobs - unusable, picked := if c.Some? then Some(c.value.id.scope) else s.picked)
  }

  function Selection(v: View, c: Option<Candidate>): Step {
    if c.Some? then Select(v, c.value) else SelectNothing(v)
  }

  lemma SelectStep(s: State, v: View, reps: map<string, JobId>, unusable: set<JobId>, c: Option<Candidate>)
    requires Representatives(s, v, reps) && unusable == UnusableAmong(s, v, s.jobs.Keys)
    requires if c.Some? then Selects(s, v, c.value) else |reps| == 0
    ensures Next(s, Selection(v, c), AfterSelection(s, c, unusable))
  {
    assert s.jobs - unusable == Sifted(s, v).jobs;
  }

  function Stamped(s: State, scope: string): State {
    s.(served := s.served[scope := s.servedSequence + 1], servedSequence := s.servedSequence + 1, picked := None)
  }

  datatype Outcome = Refreshed | Unauthorized | Errored

  function Backoff(failures: nat): nat
    requires failures > 0
  {
    15 * SECOND * if failures == 1 then 1 else if failures == 2 then 2 else if failures == 3 then 4 else if failures == 4 then 8 else 16
  }

  function Finished(job: Job, outcome: Outcome, now: nat): Job {
    if outcome.Refreshed? then job.(last := now, next := 0, failures := 0)
    else job.(failures := job.failures + 1, next := now + Backoff(job.failures + 1))
  }

  /** The end of a refresh. A rejected credential takes its scope's jobs with it. */
  function Finish(s: State, c: Candidate, outcome: Outcome, now: nat): State {
    var scope := c.id.scope;
    var u := if outcome.Unauthorized? then s.(contexts := s.contexts - {scope}, jobs := WithoutScope(s.jobs, scope)) else s;
    if c.id in u.jobs && u.jobs[c.id].sequence == c.job.sequence
    then u.(jobs := u.jobs[c.id := Finished(u.jobs[c.id], outcome, now)], cleared := None)
    else u.(cleared := None)
  }

  /** The check just before a refreshed body is stored. */
  predicate Permit(s: State, c: Candidate, now: nat) {
    && c.id in s.jobs && s.jobs[c.id].sequence == c.job.sequence && Warming(s)
    && (c.owner || (c.id.scope in s.contexts && s.contexts[c.id.scope].version == c.version && now < s.contexts[c.id.scope].expires))
  }

  // ---- Runs --------------------------------------------------------------------------------

  datatype Step =
    | Track(now: nat, key: string, snap: Snapshot, credential: string, authorized: bool)
    | ForgetScope(scope: string)
    | Configure(config: Config)
    | SetPaused(paused: bool)
    | BeginForeground
    | EndForeground
    | ExpireContexts(now: nat)
    | Select(v: View, c: Candidate)
    | SelectNothing(v: View)
    | DropJob(id: JobId)
    | Stamp(scope: string)
    | Check(c: Candidate, now: nat)
    | Store(c: Candidate)
    | FinishRefresh(c: Candidate, outcome: Outcome, now: nat, bytes: nat)

  ghost predicate Next(s: State, step: Step, t: State) {
    match step
    case Track(now, key, snap, credential, authorized) => Tracked(s, now, key, snap, credential, authorized, t)
    case ForgetScope(scope) => t == Forget(s, scope)
    case Configure(config) => Configured(s, config, t)
    case SetPaused(paused) => t == s.(paused := paused)
    case BeginForeground => t == s.(foreground := s.foreground + 1)
    case EndForeground => t == s.(foreground := s.foreground - 1)
    case ExpireContexts(now) => t == Expire(s, now)
    case Select(v, c) => Selects(s, v, c) && t == Sifted(s, v).(picked := Some(c.id.scope))
    case SelectNothing(v) => (forall id | id in s.jobs :: !IsCandidate(s, v, id)) && t == Sifted(s, v)
    case DropJob(id) => t == s.(jobs := s.jobs - {id}, picked := None)
    case Stamp(scope) => s.picked == Some(scope) && t == Stamped(s, scope)
    case Check(c, now) => Permit(s, c, now) && t == s.(cleared := Some(c))
    case Store(c) => s.cleared == Some(c) && t == s.(cleared := None)
    case FinishRefresh(c, outcome, now, _) => t == Finish(s, c, outcome, now)
  }
}
