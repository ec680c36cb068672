/** The response cache protocol, as interleaved steps of requests, warm refreshes, writes and
    invalidations. A read takes the stamp of its namespace, and every hit and every store is
    preceded by a second read of the stamp. A watch-state write reaches the origin, then bumps
    its scope, and only then is acknowledged; a bump that fails raises the cacheBroken flag. */
module Coherence {
  import opened Basics
  import opened Generations

  // ---- The log ---------------------------------------------------------------------------

  /** What happened to the counters and to the flag, in order, each with the origin's version at
      that instant. Failed names the counter whose bump failed. Cleared lowers the flag: after a
      global bump at position window - 1, or, with window 0, because the process restarted. */
  datatype Event =
    | Bumped(origin: nat, b: Counter)
    | Failed(origin: nat, b: Counter)
    | Cleared(origin: nat, window: nat)

  ghost function Bumps(log: seq<Event>): seq<Counter> {
    if log == [] then []
    else
      var e := log[|log| - 1];
      Bumps(log[..|log| - 1]) + if e.Bumped? then [e.b] else []
  }

  lemma {:induction false} BumpsSplit(log: seq<Event>, i: nat)
    requires i <= |log|
    ensures Bumps(log) == Bumps(log[..i]) + Bumps(log[i..])
    decreases |log|
  {
    if i == |log| {
      assert log[..i] == log && log[i..] == [];
    } else {
      var n := |log| - 1;
      BumpsSplit(log[..n], i);
      assert log[..n][..i] == log[..i] && log[..n][i..] == log[i..][..n - i];
    }
  }

  lemma {:induction false} BumpsContain(log: seq<Event>, j: nat)
    requires j < |log| && log[j].Bumped?
    ensures log[j].b in Bumps(log)
  {
    var n := |log| - 1;
    if j < n {
      BumpsContain(log[..n], j);
    }
  }

  ghost function StampAt(log: seq<Event>, n: Namespace): Stamp {
    StampOf(Bumps(log), n)
  }

  /** Equal stamps: no covering bump between the two instants, or none but the global one counts. */
  lemma EqualStamps(log: seq<Event>, i: nat, j: nat, n: Namespace)
    requires i <= j <= |log| && StampAt(log[..i], n) == StampAt(log[..j], n)
    ensures forall k | i <= k < j && log[k].Bumped? && Covers(log[k].b, n) ::
              StampAt(log[..i], n).scopeGen == UINT64_MAX && log[k].b != Global
  {
    forall k | i <= k < j && log[k].Bumped? && Covers(log[k].b, n)
      ensures StampAt(log[..i], n).scopeGen == UINT64_MAX && log[k].b != Global
    {
      BumpBetween(log, i, j, n, k);
    }
  }

  lemma BumpBetween(log: seq<Event>, i: nat, j: nat, n: Namespace, k: nat)
    requires i <= k < j <= |log| && StampAt(log[..i], n) == StampAt(log[..j], n)
    requires log[k].Bumped? && Covers(log[k].b, n)
    ensures StampAt(log[..i], n).scopeGen == UINT64_MAX && log[k].b != Global
  {
    var upto := log[..j];
    BumpsSplit(upto, i);
    assert upto[..i] == log[..i];
    StampsSeparate(Bumps(log[..i]), Bumps(upto[i..]), n);
    BumpsContain(upto[i..], k - i);
  }

  lemma StampBetween(log: seq<Event>, i: nat, j: nat, n: Namespace)
    requires i <= j <= |log| && StampAt(log[..i], n) == StampAt(log, n)
    ensures StampAt(log[..j], n) == StampAt(log, n)
  {
    BumpsSplit(log, j);
    BumpsSplit(log[..j], i);
    assert log[..j][..i] == log[..i];
    StampsBetween(Bumps(log[..i]), Bumps(log[..j][i..]), Bumps(log[j..]), n);
  }

  /** The cacheBroken flag. */
  predicate Flag(log: seq<Event>) {
    if log == [] then false
    else
      match log[|log| - 1]
      case Failed(_, _) => true
      case Cleared(_, _) => false
      case Bumped(_, _) => Flag(log[..|log| - 1])
  }

  predicate GlobalAt(log: seq<Event>, j: int) {
    0 <= j < |log| && log[j].Bumped? && log[j].b == Global
  }

  lemma BumpsNext(log: seq<Event>, e: Event)
    ensures Bumps(log + [e]) == Bumps(log) + if e.Bumped? then [e.b] else []
    ensures Flag(log + [e]) == (e.Failed? || (e.Bumped? && Flag(log)))
  {
    assert (log + [e])[..|log|] == log;
  }

  ghost predicate GlobalBetween(log: seq<Event>, i: int, k: nat) {
    exists j :: i < j < k && GlobalAt(log, j)
  }

  /** Every lowering of the flag belongs to an earlier global bump or to a restart. */
  ghost predicate ClearsJustified(log: seq<Event>) {
    forall k | 0 <= k < |log| && log[k].Cleared? :: Justified(log, k, log[k].window)
  }

  ghost predicate Justified(log: seq<Event>, k: nat, window: nat) {
    window == 0 || (window <= k && GlobalAt(log, window - 1))
  }

  /** The global bumps whose operation has yet to lower the flag. */
  ghost function Clearing(log: seq<Event>): (pending: set<nat>)
    ensures forall g | g in pending :: GlobalAt(log, g)
  {
    if log == [] then {}
    else
      var n := |log| - 1;
      var before := Clearing(log[..n]);
      match log[n]
      case Bumped(_, b) => if b == Global then before + {n} else before
      case Failed(_, _) => before
      case Cleared(_, window) => if window == 0 then {} else before - {window - 1}
  }

  /** Every lowering of the flag is that of a pending global bump, or a restart. */
  ghost predicate Realizable(log: seq<Event>) {
    forall k | 0 <= k < |log| && log[k].Cleared? :: log[k].window == 0 || log[k].window - 1 in Clearing(log[..k])
  }

  lemma RealizableNext(log: seq<Event>, e: Event)
    requires Realizable(log) && (e.Cleared? ==> e.window == 0 || e.window - 1 in Clearing(log))
    ensures Realizable(log + [e])
  {
    hide Clearing;
    var next := log + [e];
    forall k | 0 <= k < |next| && next[k].Cleared?
      ensures next[k].window == 0 || next[k].window - 1 in Clearing(next[..k])
    {
      assert next[..k] == log[..k];
      assert log[..|log|] == log;
    }
  }

  lemma RealizableJustified(log: seq<Event>)
    requires Realizable(log)
    ensures ClearsJustified(log)
  {
    forall k | 0 <= k < |log| && log[k].Cleared?
      ensures Justified(log, k, log[k].window)
    {
      assert log[k].window == 0 || GlobalAt(log[..k], log[k].window - 1);
    }
  }

  lemma JustifiedNext(log: seq<Event>, e: Event)
    requires ClearsJustified(log) && (e.Cleared? ==> Justified(log, |log|, e.window))
    ensures ClearsJustified(log + [e])
  {
    forall k | 0 <= k <= |log| && (log + [e])[k].Cleared?
      ensures Justified(log + [e], k, (log + [e])[k].window)
    {
      if k < |log| {
        assert Justified(log, k, log[k].window);
      }
    }
  }

  /** No lowering of the flag hides a failure: a failure since the global bump it belongs to (or
      before a restart) was itself followed by a global bump. */
  ghost predicate NothingForgotten(log: seq<Event>, upto: nat) {
    forall k, i | 0 <= i < k < |log| && k < upto && log[k].Cleared? && log[k].window <= i && log[i].Failed? ::
      GlobalBetween(log, i, k)
  }

  /** While the flag is down, every failure has been made good by a global bump. */
  ghost predicate FlagSound(log: seq<Event>) {
    forall n, i | 0 <= i < n <= |log| && !Flag(log[..n]) && log[i].Failed? :: GlobalBetween(log, i, n)
  }

  lemma {:induction false} LoweredSince(log: seq<Event>, i: nat) returns (k: nat)
    requires i < |log| && log[i].Failed? && !Flag(log)
    ensures i < k < |log| && log[k].Cleared?
  {
    var n := |log| - 1;
    if log[n].Cleared? {
      k := n;
    } else {
      k := LoweredSince(log[..n], i);
    }
  }

  lemma FailureMadeGood(log: seq<Event>, i: nat, n: nat)
    requires ClearsJustified(log) && NothingForgotten(log, n)
    requires i < n <= |log| && log[i].Failed? && !Flag(log[..n])
    ensures GlobalBetween(log, i, n)
  {
    var k := LoweredSince(log[..n], i);
    assert log[k].Cleared?;
    if log[k].window <= i {
      assert GlobalBetween(log, i, k);
    } else {
      assert Justified(log, k, log[k].window);
      assert GlobalAt(log, log[k].window - 1);
    }
  }

  /** The flag can be trusted at every instant exactly if no lowering forgot a failure. */
  lemma FlagSoundExactly(log: seq<Event>)
    requires ClearsJustified(log)
    ensures FlagSound(log) <==> NothingForgotten(log, |log|)
  {
    if NothingForgotten(log, |log|) {
      forall n, i | 0 <= i < n <= |log| && !Flag(log[..n]) && log[i].Failed?
        ensures GlobalBetween(log, i, n)
      {
        FailureMadeGood(log, i, n);
      }
    }
    if FlagSound(log) {
      forall k, i | 0 <= i < k < |log| && log[k].Cleared? && log[k].window <= i && log[i].Failed?
        ensures GlobalBetween(log, i, k)
      {
        assert !Flag(log[..k + 1]);
        assert GlobalBetween(log, i, k + 1);
      }
    }
  }

  // ---- The system ------------------------------------------------------------------------

  /** A response body, known by the origin version it shows and the log position at which its
      fetch began. */
  datatype Entry = Entry(version: nat, began: nat)

  datatype Key = Key(n: Namespace, resource: string, stamp: Stamp)

  datatype Phase =
    | Observed
    | Looked(entry: Entry)
    | Checked(entry: Entry, at: nat)
    | Served(entry: Entry, at: nat, rechecked: nat)
    | Fetching(began: nat, floor: nat)
    | Fetched(began: nat, version: nat)
    | Passed(began: nat, version: nat)
    | Ready(began: nat, version: nat)

  /** A request, or with warm set a refresh by the warmer, which never looks up and never reads
      the flag. */
  datatype Reader = Reader(n: Namespace, resource: string, stamp: Stamp, since: nat, warm: bool, phase: Phase)

  datatype Write =
    | AtOrigin(scope: string, version: nat)
    | Retired(scope: string, version: nat, at: nat)
    | Acked(scope: string, version: nat, at: nat)

  datatype State = State(
    log: seq<Event>, origin: nat, cache: map<Key, Entry>, readers: map<nat, Reader>, writes: map<nat, Write>)

  const INITIAL := State([], 0, map[], map[], map[])

  datatype Step =
    | OriginMoves
    | WriteAtOrigin(w: nat, scope: string)
    | BumpScope(w: nat, ok: bool)
    | Acknowledge(w: nat)
    | Invalidate(b: Counter)
    | InvalidateFails(b: Counter)
    | ClearFlag(g: nat)
    | Restart
    | Expire(key: Key)
    | Observe(a: nat, n: Namespace, resource: string, warm: bool)
    | Lookup(a: nat)
    | CheckFlag(a: nat)
    | RecheckHit(a: nat)
    | Miss(a: nat)
    | BeginFetch(a: nat)
    | EndFetch(a: nat, version: nat)
    | CheckStore(a: nat)
    | RecheckStore(a: nat)
    | Store(a: nat)
    | Leave(a: nat)

  function KeyOf(r: Reader): Key {
    Key(r.n, r.resource, r.stamp)
  }

  ghost predicate Enabled(s: State, step: Step) {
    match step
    case OriginMoves => true
    case WriteAtOrigin(w, _) => w !in s.writes
    case BumpScope(w, _) => w in s.writes && s.writes[w].AtOrigin?
    case Acknowledge(w) => w in s.writes && s.writes[w].Retired?
    case Invalidate(_) => true
    case InvalidateFails(_) => true
    case ClearFlag(g) => g in Clearing(s.log)
    case Restart => true
    case Expire(_) => true
    case Observe(a, n, _, _) => a !in s.readers && n.scope != ""
    case Lookup(a) => a in s.readers && s.readers[a].phase.Observed? && !s.readers[a].warm && !Flag(s.log) && KeyOf(s.readers[a]) in s.cache
    case CheckFlag(a) => a in s.readers && s.readers[a].phase.Looked? && !Flag(s.log)
    case RecheckHit(a) => a in s.readers && s.readers[a].phase.Checked? && StampAt(s.log, s.readers[a].n) == s.readers[a].stamp
    case Miss(a) => a in s.readers && (s.readers[a].phase.Looked? || s.readers[a].phase.Checked?)
    case BeginFetch(a) => a in s.readers && s.readers[a].phase.Observed?
    case EndFetch(a, v) => a in s.readers && s.readers[a].phase.Fetching? && s.readers[a].phase.floor <= v <= s.origin
    case CheckStore(a) => a in s.readers && s.readers[a].phase.Fetched? && (s.readers[a].warm || !Flag(s.log))
    case RecheckStore(a) => a in s.readers && s.readers[a].phase.Passed? && StampAt(s.log, s.readers[a].n) == s.readers[a].stamp
    case Store(a) => a in s.readers && s.readers[a].phase.Ready?
    case Leave(a) => a in s.readers
  }

  ghost function Advance(s: State, a: nat, phase: Phase): State
    requires a in s.readers
  {
    s.(readers := s.readers[a := s.readers[a].(phase := phase)])
  }

  ghost function Record(s: State, e: Event): State {
    s.(log := s.log + [e])
  }

  /** A write without a scope has no cached responses to retire. */
  ghost function AfterBump(s: State, w: nat, ok: bool): State
    requires w in s.writes && s.writes[w].AtOrigin?
  {
    var write := s.writes[w];
    var retired := s.(writes := s.writes[w := Retired(write.scope, write.version, |s.log|)]);
    if write.scope == "" then retired
    else Record(retired, if ok then Bumped(s.origin, OfScope(write.scope)) else Failed(s.origin, OfScope(write.scope)))
  }

  /** What was in flight is gone with the process; a write that was not acknowledged never will be. */
  ghost function Restarted(s: State): State {
    s.(readers := map[], writes := map w | w in s.writes && s.writes[w].Acked? :: s.writes[w])
  }

  ghost function Apply(s: State, step: Step): State
    requires Enabled(s, step)
  {
    match step
    case OriginMoves => s.(origin := s.origin + 1)
    case WriteAtOrigin(w, scope) => s.(origin := s.origin + 1, writes := s.writes[w := AtOrigin(scope, s.origin + 1)])
    case BumpScope(w, ok) => AfterBump(s, w, ok)
    case Acknowledge(w) => s.(writes := s.writes[w := Acked(s.writes[w].scope, s.writes[w].version, s.writes[w].at)])
    case Invalidate(b) => Record(s, Bumped(s.origin, b))
    case InvalidateFails(b) => Record(s, Failed(s.origin, b))
    case ClearFlag(g) => Record(s, Cleared(s.origin, g + 1))
    case Restart => Record(Restarted(s), Cleared(s.origin, 0))
    case Expire(key) => s.(cache := s.cache - {key})
    case Observe(a, n, resource, warm) =>
      s.(readers := s.readers[a := Reader(n, resource, StampAt(s.log, n), |s.log|, warm, Observed)])
    case Lookup(a) => Advance(s, a, Looked(s.cache[KeyOf(s.readers[a])]))
    case CheckFlag(a) => Advance(s, a, Checked(s.readers[a].phase.entry, |s.log|))
    case RecheckHit(a) => Advance(s, a, Served(s.readers[a].phase.entry, s.readers[a].phase.at, |s.log|))
    case Miss(a) => Advance(s, a, Observed)
    case BeginFetch(a) => Advance(s, a, Fetching(|s.log|, s.origin))
    case EndFetch(a, v) => Advance(s, a, Fetched(s.readers[a].phase.began, v))
    case CheckStore(a) => Advance(s, a, Passed(s.readers[a].phase.began, s.readers[a].phase.version))
    case RecheckStore(a) => Advance(s, a, Ready(s.readers[a].phase.began, s.readers[a].phase.version))
    case Store(a) =>
      s.(cache := s.cache[KeyOf(s.readers[a]) := Entry(s.readers[a].phase.version, s.readers[a].phase.began)], readers := s.readers - {a})
    case Leave(a) => s.(readers := s.readers - {a})
  }

  // ---- What every step keeps ---------------------------------------------------------------

  /** A body shows every origin change that preceded its fetch. */
  ghost predicate ShowsBefore(log: seq<Event>, began: nat, version: nat) {
    began <= |log| && forall i | 0 <= i < began :: log[i].origin <= version
  }

  /** An entry was fetched while its key's stamp was current. */
  ghost predicate EntryOk(log: seq<Event>, n: Namespace, stamp: Stamp, e: Entry) {
    ShowsBefore(log, e.began, e.version) && StampAt(log[..e.began], n) == stamp
  }

  ghost predicate ReaderOk(log: seq<Event>, r: Reader) {
    && r.since <= |log| && StampAt(log[..r.since], r.n) == r.stamp
    && match r.phase
       case Observed => true
       case Looked(e) => EntryOk(log, r.n, r.stamp, e)
       case Checked(e, at) => EntryOk(log, r.n, r.stamp, e) && at <= |log| && !Flag(log[..at])
       case Served(e, at, rechecked) =>
         && EntryOk(log, r.n, r.stamp, e) && at <= rechecked <= |log| && e.began <= rechecked
         && !Flag(log[..at]) && StampAt(log[..rechecked], r.n) == r.stamp
       case Fetching(began, floor) => r.since <= began && ShowsBefore(log, began, floor)
       case Fetched(began, version) => r.since <= began && ShowsBefore(log, began, version)
       case Passed(began, version) => r.since <= began && ShowsBefore(log, began, version)
       case Ready(began, version) => EntryOk(log, r.n, r.stamp, Entry(version, began))
  }

  ghost predicate WriteOk(log: seq<Event>, origin: nat, w: Write) {
    match w
    case AtOrigin(_, version) => version <= origin
    case Retired(scope, version, at) => scope != "" ==> RetiredAt(log, scope, version, at)
    case Acked(scope, version, at) => scope != "" ==> RetiredAt(log, scope, version, at)
  }

  /** The bump of a write, or its failure, is in the log and follows the write at the origin. */
  ghost predicate RetiredAt(log: seq<Event>, scope: string, version: nat, at: nat) {
    at < |log| && version <= log[at].origin && !log[at].Cleared? && log[at].b == OfScope(scope)
  }

  ghost predicate Inv(s: State) {
    && (forall i | 0 <= i < |s.log| :: s.log[i].origin <= s.origin)
    && Realizable(s.log)
    && (forall k | k in s.cache :: EntryOk(s.log, k.n, k.stamp, s.cache[k]))
    && (forall a | a in s.readers :: ReaderOk(s.log, s.readers[a]))
    && (forall w | w in s.writes :: WriteOk(s.log, s.origin, s.writes[w]))
  }

  lemma PrefixKept(log: seq<Event>, e: Event, n: nat)
    requires n <= |log|
    ensures (log + [e])[..n] == log[..n]
  {
  }

  lemma EntryKept(log: seq<Event>, e: Event, n: Namespace, stamp: Stamp, entry: Entry)
    requires EntryOk(log, n, stamp, entry)
    ensures EntryOk(log + [e], n, stamp, entry)
  {
    PrefixKept(log, e, entry.began);
  }

  lemma ReaderKept(log: seq<Event>, e: Event, r: Reader)
    requires ReaderOk(log, r)
    ensures ReaderOk(log + [e], r)
  {
    PrefixKept(log, e, r.since);
    match r.phase
    case Observed =>
    case Looked(entry) => EntryKept(log, e, r.n, r.stamp, entry);
    case Checked(entry, at) => EntryKept(log, e, r.n, r.stamp, entry); PrefixKept(log, e, at);
    case Served(entry, at, rechecked) =>
      EntryKept(log, e, r.n, r.stamp, entry);
      PrefixKept(log, e, at);
      PrefixKept(log, e, rechecked);
    case Fetching(_, _) =>
    case Fetched(_, _) =>
    case Passed(_, _) =>
    case Ready(began, version) => EntryKept(log, e, r.n, r.stamp, Entry(version, began));
  }

  /** Appending an event keeps everything already established. */
  lemma RecordKeeps(s: State, e: Event)
    requires Inv(s) && e.origin <= s.origin && (e.Cleared? ==> e.window == 0 || e.window - 1 in Clearing(s.log))
    ensures Inv(Record(s, e))
  {
    var log := s.log + [e];
    RealizableNext(s.log, e);
    forall k | k in s.cache ensures EntryOk(log, k.n, k.stamp, s.cache[k]) {
      EntryKept(s.log, e, k.n, k.stamp, s.cache[k]);
    }
    forall a | a in s.readers ensures ReaderOk(log, s.readers[a]) {
      ReaderKept(s.log, e, s.readers[a]);
    }
  }

  lemma ReaderAdvances(s: State, a: nat, phase: Phase)
    requires Inv(s) && a in s.readers && ReaderOk(s.log, s.readers[a].(phase := phase))
    ensures Inv(Advance(s, a, phase))
  {
  }

  lemma ReadStepKeeps(s: State, step: Step)
    requires Inv(s) && Enabled(s, step)
    requires step.Lookup? || step.CheckFlag? || step.Miss?
    ensures Inv(Apply(s, step))
  {
    hide Realizable, WriteOk, StampAt, Flag;
    var r := s.readers[step.a];
    assert ReaderOk(s.log, r);
    assert s.log[..|s.log|] == s.log;
    match step
    case Lookup(a) =>
      assert EntryOk(s.log, r.n, r.stamp, s.cache[KeyOf(r)]);
      ReaderAdvances(s, a, Looked(s.cache[KeyOf(r)]));
    case CheckFlag(a) => ReaderAdvances(s, a, Checked(r.phase.entry, |s.log|));
    case Miss(a) => ReaderAdvances(s, a, Observed);
  }

  lemma RecheckHitKeeps(s: State, a: nat)
    requires Inv(s) && Enabled(s, RecheckHit(a))
    ensures Inv(Apply(s, RecheckHit(a)))
  {
    hide Realizable, WriteOk, Flag;
    var r := s.readers[a];
    assert ReaderOk(s.log, r);
    assert s.log[..|s.log|] == s.log;
    ReaderAdvances(s, a, Served(r.phase.entry, r.phase.at, |s.log|));
  }

  lemma FillStepKeeps(s: State, step: Step)
    requires Inv(s) && Enabled(s, step)
    requires step.BeginFetch? || step.EndFetch? || step.CheckStore?
    ensures Inv(Apply(s, step))
  {
    hide Realizable, WriteOk, StampAt, Flag;
    var r := s.readers[step.a];
    assert ReaderOk(s.log, r);
    match step
    case BeginFetch(a) => ReaderAdvances(s, a, Fetching(|s.log|, s.origin));
    case EndFetch(a, v) => ReaderAdvances(s, a, Fetched(r.phase.began, v));
    case CheckStore(a) => ReaderAdvances(s, a, Passed(r.phase.began, r.phase.version));
  }

  lemma RecheckStoreKeeps(s: State, a: nat)
    requires Inv(s) && Enabled(s, RecheckStore(a))
    ensures Inv(Apply(s, RecheckStore(a)))
  {
    var r := s.readers[a];
    assert ReaderOk(s.log, r);
    StampBetween(s.log, r.since, r.phase.began, r.n);
    ReaderAdvances(s, a, Ready(r.phase.began, r.phase.version));
  }

  lemma BumpScopeKeeps(s: State, w: nat, ok: bool)
    requires Inv(s) && w in s.writes && s.writes[w].AtOrigin?
    ensures Inv(AfterBump(s, w, ok))
  {
    hide Realizable, ReaderOk, EntryOk, Flag, StampAt;
    var write := s.writes[w];
    assert WriteOk(s.log, s.origin, write);
    if write.scope != "" {
      var e := if ok then Bumped(s.origin, OfScope(write.scope)) else Failed(s.origin, OfScope(write.scope));
      RecordKeeps(s.(writes := s.writes - {w}), e);
      assert RetiredAt(s.log + [e], write.scope, write.version, |s.log|);
    }
  }

  lemma PlainStepKeeps(s: State, step: Step)
    requires Inv(s) && Enabled(s, step)
    requires step.OriginMoves? || step.WriteAtOrigin? || step.Acknowledge? || step.Expire? || step.Leave?
    ensures Inv(Apply(s, step))
  {
    hide Realizable, ReaderOk, EntryOk, Flag, StampAt;
    if step.Acknowledge? {
      assert WriteOk(s.log, s.origin, s.writes[step.w]);
    }
  }

  lemma ObserveKeeps(s: State, step: Step)
    requires Inv(s) && Enabled(s, step) && (step.Observe? || step.Store?)
    ensures Inv(Apply(s, step))
  {
    match step
    case Observe(_, _, _, _) => assert s.log[..|s.log|] == s.log;
    case Store(a) => assert ReaderOk(s.log, s.readers[a]);
  }

  /** Every step keeps the invariant. */
  lemma StepKeeps(s: State, step: Step)
    requires Inv(s) && Enabled(s, step)
    ensures Inv(Apply(s, step))
  {
    if step.BumpScope? {
      BumpScopeKeeps(s, step.w, step.ok);
    } else if step.Invalidate? {
      RecordKeeps(s, Bumped(s.origin, step.b));
    } else if step.InvalidateFails? {
      RecordKeeps(s, Failed(s.origin, step.b));
    } else if step.ClearFlag? {
      RecordKeeps(s, Cleared(s.origin, step.g + 1));
    } else if step.Restart? {
      RecordKeeps(Restarted(s), Cleared(s.origin, 0));
    } else if step.Observe? || step.Store? {
      ObserveKeeps(s, step);
    } else if step.Lookup? || step.CheckFlag? || step.Miss? {
      ReadStepKeeps(s, step);
    } else if step.RecheckHit? {
      RecheckHitKeeps(s, step.a);
    } else if step.RecheckStore? {
      RecheckStoreKeeps(s, step.a);
    } else if step.BeginFetch? || step.EndFetch? || step.CheckStore? {
      FillStepKeeps(s, step);
    } else {
      PlainStepKeeps(s, step);
    }
  }

  // ---- What a hit promises -----------------------------------------------------------------

  /** No covering bump lies between the fetch of a served body and the second read of the stamp;
      once the stamp is saturated, no global one does. */
  lemma HitIsFresh(s: State, a: nat)
    requires Inv(s) && a in s.readers && s.readers[a].phase.Served?
    ensures
      var r := s.readers[a];
      forall k | r.phase.entry.began <= k < r.phase.rechecked && s.log[k].Bumped? && Covers(s.log[k].b, r.n) ::
        r.stamp.scopeGen == UINT64_MAX && s.log[k].b != Global
  {
    var r := s.readers[a];
    assert ReaderOk(s.log, r);
    EqualStamps(s.log, r.phase.entry.began, r.phase.rechecked, r.n);
  }

  /** A later bump that covers the namespace has done what the failed one should have. */
  ghost predicate MadeGood(log: seq<Event>, n: Namespace, i: nat, at: nat) {
    exists j :: i < j < at && j < |log| && log[j].Bumped? && Covers(log[j].b, n)
  }

  /** Every failed bump of the namespace's own scope before an instant was made good by then. */
  ghost predicate Remembers(log: seq<Event>, n: Namespace, at: nat) {
    forall i | 0 <= i < at && i < |log| && log[i].Failed? && log[i].b == OfScope(n.scope) :: MadeGood(log, n, i, at)
  }

  /** A trusted flag that is down has forgotten no failure. */
  lemma TrustRemembers(log: seq<Event>, n: Namespace, at: nat)
    requires ClearsJustified(log) && NothingForgotten(log, at) && at <= |log| && !Flag(log[..at])
    ensures Remembers(log, n, at)
  {
    forall i | 0 <= i < at && log[i].Failed? && log[i].b == OfScope(n.scope)
      ensures MadeGood(log, n, i, at)
    {
      FailureMadeGood(log, i, at);
      var j :| i < j < at && GlobalAt(log, j);
      assert Covers(log[j].b, n);
    }
  }

  /** A hit whose flag check came after a write of its own scope was retired shows that write. */
  lemma HitShowsOwnWrites(s: State, a: nat, w: nat)
    requires Inv(s) && a in s.readers && s.readers[a].phase.Served? && s.readers[a].stamp.scopeGen < UINT64_MAX
    requires w in s.writes && !s.writes[w].AtOrigin? && s.writes[w].scope == s.readers[a].n.scope != ""
    requires s.writes[w].at < s.readers[a].phase.at
    requires Remembers(s.log, s.readers[a].n, s.readers[a].phase.at)
    ensures s.writes[w].version <= s.readers[a].phase.entry.version
  {
    var r, at := s.readers[a], s.writes[w].at;
    assert ReaderOk(s.log, r) && WriteOk(s.log, s.origin, s.writes[w]);
    HitIsFresh(s, a);
    assert RetiredAt(s.log, r.n.scope, s.writes[w].version, at);
    if s.log[at].Failed? {
      assert MadeGood(s.log, r.n, at, r.phase.at);
    } else {
      assert Covers(s.log[at].b, r.n);
    }
  }

  // ---- Whole runs ----------------------------------------------------------------------------

  /** The steps lead from one state to the other. */
  ghost predicate Leads(s: State, steps: seq<Step>, t: State)
    decreases |steps|
  {
    if steps == [] then s == t
    else Enabled(s, steps[0]) && Leads(Apply(s, steps[0]), steps[1..], t)
  }

  lemma {:induction false} RunKeeps(s: State, steps: seq<Step>, t: State)
    requires Inv(s) && Leads(s, steps, t)
    ensures Inv(t)
    decreases |steps|
  {
    if steps != [] {
      StepKeeps(s, steps[0]);
      RunKeeps(Apply(s, steps[0]), steps[1..], t);
    }
  }

  /** In every run: a body served from the cache was fetched after every covering bump that
      completed before the second read of the stamp. */
  lemma HitsAreFresh(steps: seq<Step>, t: State, a: nat, k: nat)
    requires Leads(INITIAL, steps, t) && a in t.readers && t.readers[a].phase.Served?
    requires k < t.readers[a].phase.rechecked && k < |t.log| && t.log[k].Bumped? && Covers(t.log[k].b, t.readers[a].n)
    requires t.readers[a].stamp.scopeGen < UINT64_MAX || t.log[k].b == Global
    ensures k < t.readers[a].phase.entry.began && t.log[k].origin <= t.readers[a].phase.entry.version
  {
    RunKeeps(INITIAL, steps, t);
    assert ReaderOk(t.log, t.readers[a]);
    HitIsFresh(t, a);
  }

  /** A request that is still to come has its flag check still to come. */
  ghost predicate NotBefore(s: State, a: nat, n: nat) {
    && n <= |s.log|
    && (a in s.readers && s.readers[a].phase.Checked? ==> n <= s.readers[a].phase.at)
    && (a in s.readers && s.readers[a].phase.Served? ==> n <= s.readers[a].phase.at)
  }

  lemma LaterStep(s: State, step: Step, a: nat, w: nat, n: nat)
    requires Enabled(s, step) && NotBefore(s, a, n) && w in s.writes && s.writes[w].Acked?
    ensures NotBefore(Apply(s, step), a, n) && w in Apply(s, step).writes && Apply(s, step).writes[w] == s.writes[w]
  {
    hide StampAt, Clearing, Flag;
  }

  lemma {:induction false} Later(s: State, steps: seq<Step>, t: State, a: nat, w: nat, n: nat)
    requires Leads(s, steps, t) && NotBefore(s, a, n) && w in s.writes && s.writes[w].Acked?
    ensures NotBefore(t, a, n) && w in t.writes && t.writes[w] == s.writes[w]
    decreases |steps|
  {
    hide Enabled, Apply, NotBefore;
    if steps != [] {
      LaterStep(s, steps[0], a, w, n);
      Later(Apply(s, steps[0]), steps[1..], t, a, w, n);
    }
  }

  /** In every run: once a write has been acknowledged (in s), a request of the same scope that
      starts afterwards and is answered from the cache (in t) shows that write, provided every
      failed bump of that scope before its flag check was made good. */
  lemma AcknowledgedWritesAreSeen(before: seq<Step>, s: State, after: seq<Step>, t: State, a: nat, w: nat)
    requires Leads(INITIAL, before, s) && Leads(s, after, t)
    requires w in s.writes && s.writes[w].Acked? && a !in s.readers
    requires a in t.readers && t.readers[a].phase.Served? && t.readers[a].n.scope == s.writes[w].scope != ""
    requires t.readers[a].stamp.scopeGen < UINT64_MAX && Remembers(t.log, t.readers[a].n, t.readers[a].phase.at)
    ensures s.writes[w].version <= t.readers[a].phase.entry.version
  {
    RunKeeps(INITIAL, before, s);
    RunKeeps(s, after, t);
    Later(s, after, t, a, w, |s.log|);
    assert WriteOk(s.log, s.origin, s.writes[w]);
    HitShowsOwnWrites(t, a, w);
  }
}
