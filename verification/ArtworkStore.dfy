/** The shared artwork store as its locked sections. A section works on a copy of the index
    (its transaction) and on the directory itself; it may be cut short after any file
    operation or statement, keeping the directory and losing the copy. */
module ArtworkStore {
  import opened Basics
  import opened MapSums
  import opened ArtworkTables
  import opened ArtworkRecovery

  datatype Error = Capacity | BadReservation | BadImage | Unavailable

  /** Aborted: the process died or the transaction was lost; nothing more of the section runs. */
  datatype Outcome = Done | Failed(error: Error) | Aborted

  datatype Options = Options(maxBytes: nat, minFreeBytes: nat, lowWatermarkBytes: nat, protectedBytes: nat, maxReservations: nat)

  datatype Stats = Stats(blobs: nat, payload: nat, reservations: nat, reserved: nat, total: nat, protected: nat, free: nat)

  /** The room asked for, and what may be charged in total once it has been made: under pressure
      down to the low watermark, otherwise the budget, which the first test implies anyway. */
  datatype Ask = Ask(need: nat, protectedNeed: nat, target: int)

  function AskFor(o: Options, total: nat, need: nat, protectedNeed: nat): Ask {
    Ask(need, protectedNeed, if total + need > o.maxBytes then Min(o.lowWatermarkBytes, o.maxBytes - need) else o.maxBytes)
  }

  predicate RoomFor(o: Options, st: Stats, a: Ask) {
    && st.total + a.need <= o.maxBytes && st.total <= a.target
    && st.free >= o.minFreeBytes + st.reserved + a.need
    && (a.protectedNeed == 0 || st.protected + a.protectedNeed <= o.protectedBytes)
  }

  class SharedStore {
    const opts: Options
    var db: Tables
    var files: Files
    var ready: bool
    /** The image of the last committed Commit of each key. */
    ghost var latest: map<Key, Image>
    /** Every reservation id drawn so far, and those whose Commit has not begun. */
    ghost var issued: set<ReservationId>
    ghost var unstaged: set<ReservationId>
    /** The blob paths at which something other than the store put or enlarged a file. */
    ghost var alien: set<Path>
    /** The files the file system may refuse to remove. */
    var refuses: set<Path>

    ghost predicate Handles(t: Tables)
      reads this
    {
      && unstaged <= issued && t.reservations.Keys <= issued
      && forall id | id in unstaged && id in t.reservations :: t.reservations[id].candidate == None
    }

    ghost predicate Valid()
      reads this
    {
      Safe(db, files, alien, latest) && Handles(db)
    }

    constructor (opts: Options)
      ensures Valid() && this.opts == opts && !ready && files == map[] && latest == map[] && alien == {}
      ensures TotalBytes(db) == 0
    {
      this.opts := opts;
      db := Tables(map[], map[], map[], 0);
      files, ready, refuses, latest, issued, unstaged, alien := map[], false, {}, map[], {}, {}, {};
    }

    // ---- File operations and statements that may fail or be cut short -----------------

    method Unlink(p: Path) returns (ghost removed: set<Path>, o: Outcome)
      modifies this`files
      ensures files == old(files) - removed && (removed == {} || removed == {p})
      ensures o.Done? ==> removed == {p}
      ensures o.Failed? ==> o.error == Unavailable && removed == {} && p in refuses
    {
      removed := {};
      if {
        case true => files, removed := files - {p}, {p}; o := Done;
        case p in refuses => o := Failed(Unavailable);
        case true => files, removed := files - {p}, {p}; o := Aborted;
        case true => o := Aborted;
      }
    }

    /** Creates the temporary exclusively; a failed write can leave a part of the body behind. */
    method WriteTemp(id: ReservationId, body: Bytes) returns (o: Outcome)
      modifies this`files
      ensures files.Keys <= old(files).Keys + {TmpPath(id)}
      ensures forall p | p in files && p != TmpPath(id) :: p in old(files) && files[p] == old(files)[p]
      ensures forall p | p in old(files) :: p in files && files[p] == old(files)[p]
      ensures o.Done? ==> TmpPath(id) in files && files[TmpPath(id)] == body && TmpPath(id) !in old(files)
      ensures o.Failed? ==> o.error == Unavailable
    {
      if TmpPath(id) in files {
        return Failed(Unavailable);
      }
      if {
        case true => files := files[TmpPath(id) := body]; o := Done;
        case true => var n: nat :| n <= |body|; files := files[TmpPath(id) := body[..n]]; o := Failed(Unavailable);
        case true => var n: nat :| n <= |body|; files := files[TmpPath(id) := body[..n]]; o := Aborted;
        case true => o := Aborted;
      }
    }

    method Rename(id: ReservationId, d: Digest) returns (o: Outcome)
      requires TmpPath(id) in files
      modifies this`files
      ensures files == old(files) || files == old(files)[BlobPath(d) := old(files)[TmpPath(id)]] - {TmpPath(id)}
      ensures o.Done? ==> files == old(files)[BlobPath(d) := old(files)[TmpPath(id)]] - {TmpPath(id)}
      ensures o.Failed? ==> o.error == Unavailable
    {
      var moved := files[BlobPath(d) := files[TmpPath(id)]] - {TmpPath(id)};
      if {
        case true => files := moved; o := Done;
        case true => o := Failed(Unavailable);
        case true => files := moved; o := Aborted;
        case true => o := Aborted;
      }
    }

    /** A statement or probe inside a transaction: if it fails, the transaction is lost. */
    method Statement() returns (o: Outcome)
      ensures o.Done? || o.Aborted?
    {
      if {
        case true => o := Done;
        case true => o := Aborted;
      }
    }

    /** COMMIT. A lost acknowledgement leaves the caller not knowing whether it happened. */
    method CommitTx(tx: Tables, ghost newest: map<Key, Image>) returns (o: Outcome)
      requires Valid() && Safe(tx, files, alien, newest) && Handles(tx)
      modifies this`db, this`latest
      ensures Valid()
      ensures o.Done? || o.Aborted?
      ensures o.Done? ==> db == tx && latest == newest
      ensures (db == tx && latest == newest) || (db == old(db) && latest == old(latest))
    {
      if {
        case true => db, latest := tx, newest; o := Done;
        case true => db, latest := tx, newest; o := Aborted;
        case true => o := Aborted;
      }
    }

    // ---- Reservations -----------------------------------------------------------------

    method ReleaseReservation(tx: Tables, id: ReservationId) returns (tx': Tables, ghost removed: set<Path>, o: Outcome)
      modifies this`files
      ensures files == old(files) - removed
      ensures o.Done? ==> tx' == Release(tx, {id}) && removed == ReleasedPaths(tx, {id})
      ensures o.Failed? ==> o.error == Unavailable && refuses != {}
    {
      tx' := Release(tx, {id});
      removed, o := Unlink(TmpPath(id));
      if o.Done? && id in tx.reservations {
        var candidate := tx.reservations[id].candidate;
        if candidate.Some? && candidate.value !in tx.blobs {
          ghost var more;
          more, o := Unlink(BlobPath(candidate.value));
          RemoveTwice(old(files), removed, more);
          removed := removed + more;
        }
      }
      if o.Done? {
        assert removed == ReleasedPaths(tx, {id});
        o := Statement();
      }
    }

    method CleanExpired(tx: Tables, now: int) returns (tx': Tables, ghost removed: set<Path>, o: Outcome)
      modifies this`files
      ensures files == old(files) - removed
      ensures o.Done? ==> tx' == Release(tx, ExpiredReservations(tx, now)) && removed == ReleasedPaths(tx, ExpiredReservations(tx, now))
      ensures o.Failed? ==> o.error == Unavailable && refuses != {}
    {
      hide Release, ReleasedPaths, ExpiredReservations;
      tx', removed, o := tx, {}, Done;
      var todo := ExpiredReservations(tx, now);
      ghost var done: set<ReservationId> := {};
      ReleaseNone(tx, files);
      while todo != {} && o.Done?
        invariant todo + done == ExpiredReservations(tx, now) && todo !! done
        invariant files == old(files) - removed
        invariant o.Done? ==> tx' == Release(tx, done) && removed == ReleasedPaths(tx, done)
        invariant o.Failed? ==> o.error == Unavailable && refuses != {}
        decreases |todo|
      {
        var id :| id in todo;
        ghost var more;
        ReleaseOneMore(tx, done, id);
        tx', more, o := ReleaseReservation(tx', id);
        RemoveTwice(old(files), removed, more);
        todo, done, removed := todo - {id}, done + {id}, removed + more;
      }
    }

    // ---- Variants and blobs -----------------------------------------------------------

    method PruneExpiredBatch(tx: Tables, now: int) returns (tx': Tables, pending: bool, ghost pruned: set<Key>, o: Outcome)
      ensures pruned <= ExpiredVariants(tx, now) && |pruned| == Min(128, |ExpiredVariants(tx, now)|)
      ensures tx' == DeleteVariants(tx, pruned)
      ensures pending <==> ExpiredVariants(tx', now) != {}
      ensures o.Done? || o.Aborted?
    {
      var keys := Batch(ExpiredVariants(tx, now), 128);
      pruned, tx' := keys, DeleteVariants(tx, keys);
      pending := ExpiredVariants(tx', now) != {};
      o := Statement();
    }

    /** free is what the file system reports. */
    method GatherStats(tx: Tables, now: int, free: nat) returns (st: Stats, o: Outcome)
      ensures o.Done? || o.Aborted?
      ensures st.blobs == |tx.blobs| && st.payload == Payload(tx) && st.reservations == |tx.reservations|
      ensures st.reserved == Reserved(tx) && st.total == TotalBytes(tx) && st.protected == ProtectedBytes(tx, now) && st.free == free
    {
      var payload := Total(tx.blobs);
      var reserved := Total(map id | id in tx.reservations :: tx.reservations[id].bytes);
      var protectedBlobs := Total(ProtectedBlobs(tx, now));
      var protectedReserved := Total(ProtectedReservations(tx));
      st := Stats(|tx.blobs|, payload, |tx.reservations|, reserved,
                  payload + |tx.blobs| * BLOB_OVERHEAD + |tx.variants| * VARIANT_OVERHEAD + reserved + tx.untracked,
                  protectedBlobs + protectedReserved + |ProtectedVariants(tx, now)| * VARIANT_OVERHEAD, free);
      o := Statement();
    }

    method RemoveBlob(tx: Tables, d: Digest) returns (tx': Tables, ghost removed: set<Path>, o: Outcome)
      modifies this`files
      ensures files == old(files) - removed
      ensures o.Failed? ==> o.error == Unavailable && tx' == tx && removed == {} && BlobPath(d) in refuses
      ensures o.Done? ==> tx' == Evict(tx, {d}) && removed == PathsOf({d})
    {
      tx' := tx;
      removed, o := Unlink(BlobPath(d));
      if o.Done? {
        assert PathsOf({d}) == {BlobPath(d)};
        tx' := Evict(tx, {d});
        o := Statement();
      }
    }

    method RemoveBatch(tx: Tables, batch: set<Digest>) returns (tx': Tables, ghost removed: set<Path>, o: Outcome)
      modifies this`files
      ensures files == old(files) - removed
      ensures o.Done? ==> tx' == Evict(tx, batch) && removed == PathsOf(batch)
      ensures o.Failed? ==> o.error == Unavailable && refuses != {}
    {
      hide Evict, PathsOf;
      tx', removed, o := tx, {}, Done;
      var todo := batch;
      EvictNone(tx, files);
      ghost var gone: set<Digest> := {};
      while todo != {} && o.Done?
        invariant gone + todo == batch && gone !! todo
        invariant files == old(files) - removed
        invariant o.Done? ==> tx' == Evict(tx, gone) && removed == PathsOf(gone)
        invariant o.Failed? ==> o.error == Unavailable && refuses != {}
        decreases |todo|
      {
        var d :| d in todo;
        ghost var more;
        EvictMore(tx, gone, {d});
        tx', more, o := RemoveBlob(tx', d);
        RemoveTwice(old(files), removed, more);
        todo, gone, removed := todo - {d}, gone + {d}, removed + more;
      }
    }

    /** Removes unreferenced blobs in batches of 128 until a batch is not full. */
    method RemoveUnreferenced(tx: Tables) returns (tx': Tables, ghost removed: set<Path>, o: Outcome)
      modifies this`files
      ensures files == old(files) - removed
      ensures o.Done? ==> tx' == Evict(tx, UnreferencedBlobs(tx)) && removed == PathsOf(UnreferencedBlobs(tx))
      ensures o.Failed? ==> o.error == Unavailable && refuses != {}
    {
      tx', removed, o := tx, {}, Done;
      var full := true;
      ghost var gone: set<Digest> := {};
      while full && o.Done?
        invariant gone <= UnreferencedBlobs(tx)
        invariant files == old(files) - removed
        invariant o.Done? ==> tx' == Evict(tx, gone) && removed == PathsOf(gone)
        invariant o.Failed? ==> o.error == Unavailable && refuses != {}
        invariant !full ==> gone == UnreferencedBlobs(tx)
        decreases full, |UnreferencedBlobs(tx) - gone|
      {
        UnreferencedAfter(tx, gone);
        ghost var more;
        var batch := Batch(UnreferencedBlobs(tx'), 128);
        EvictMore(tx, gone, batch);
        LessLeft(UnreferencedBlobs(tx), gone, batch);
        tx', more, o := RemoveBatch(tx', batch);
        RemoveTwice(old(files), removed, more);
        gone, removed, full := gone + batch, removed + more, |batch| == 128;
      }
    }

    /** The first 128 blobs, in eviction order, of at most the given tier. */
    method EvictionCandidates(tx: Tables, now: int, priority: nat) returns (candidates: seq<Digest>)
      ensures EvictionList(tx, now, priority, candidates)
    {
      var pool := Evictable(tx, now, priority);
      EvictionOrder(tx, now);
      candidates := Query(pool, (a, b) => EvictBefore(tx, now, a, b), 128);
      assert forall i | 0 <= i < |candidates| :: candidates[i] in pool;
      forall i, e | 0 <= i < |candidates| && e in tx.blobs && e !in candidates[..i]
        ensures EvictBefore(tx, now, candidates[i], e)
      {
        if e in pool {
          var leq := (a, b) => EvictBefore(tx, now, a, b);
          assert leq(candidates[i], e);
        }
      }
    }

    /** The room test on an index, with `free` bytes left on the file system. */
    ghost predicate HasRoom(t: Tables, now: int, ask: Ask, free: nat) {
      && TotalBytes(t) + ask.need <= opts.maxBytes && TotalBytes(t) <= ask.target
      && free >= opts.minFreeBytes + Reserved(t) + ask.need
      && (ask.protectedNeed == 0 || ProtectedBytes(t, now) + ask.protectedNeed <= opts.protectedBytes)
    }

    /** Tries to evict one blob. Done: there is room now; Failed(Capacity): go on. */
    method EvictOne(tx: Tables, now: int, d: Digest, ask: Ask, free: nat)
      returns (tx': Tables, evicted: bool, ghost removed: set<Path>, o: Outcome)
      modifies this`files
      ensures files == old(files) - removed
      ensures !o.Aborted? ==>
                if evicted then tx' == Evict(tx, {d}) && removed == PathsOf({d}) else tx' == tx && removed == {}
      ensures !o.Failed? ==> evicted
      ensures !evicted ==> BlobPath(d) in refuses
      ensures evicted && !o.Aborted? ==> (o.Done? <==> HasRoom(tx', now, ask, free))
      ensures o.Failed? ==> o.error == Capacity
    {
      hide Evict, PathsOf, TotalBytes, Reserved, ProtectedBytes;
      tx', removed, o := RemoveBlob(tx, d);
      evicted := !o.Failed?;
      if o.Done? {
        var st;
        st, o := GatherStats(tx', now, free);
        if o.Done? && !RoomFor(opts, st, ask) {
          o := Failed(Capacity);
        }
      } else if o.Failed? {
        o := Failed(Capacity);
      }
    }

    /** What was tried and not evicted, the file system refused to remove. */
    ghost predicate Refused(tried: seq<Digest>, evicted: set<Digest>)
      reads this`refuses
    {
      forall i | 0 <= i < |tried| && tried[i] !in evicted :: BlobPath(tried[i]) in refuses
    }

    /** The candidates tried so far were evicted or refused, and there was no room at the last test.
        probe(i) is what the file system has left after i candidates. */
    ghost predicate Ongoing(tx: Tables, now: int, tried: seq<Digest>, ask: Ask, probe: nat -> nat, e: Eviction)
      reads this`refuses
    {
      TriedOut(tried, e) && Refused(tried, e.evicted) && !HasRoom(Evict(tx, e.evicted), now, ask, probe(e.at))
    }

    /** The last candidate tried was evicted, which made room; before that there was none. */
    ghost predicate Stopped(tx: Tables, now: int, tried: seq<Digest>, ask: Ask, probe: nat -> nat, e: Eviction)
      reads this`refuses
    {
      && TriedOut(tried, e) && Refused(tried, e.evicted) && HasRoom(Evict(tx, e.evicted), now, ask, probe(e.at))
      && e.at == |tried| > 0 && e.before.Some? && OneMore(tried, e) && !HasRoom(Evict(tx, e.before.value.evicted), now, ask, probe(e.before.value.at))
    }

    /** Tries the next candidate. Done: there is room; Failed(Capacity): go on. */
    method EvictNext(tx: Tables, cur: Tables, now: int, candidates: seq<Digest>, i: nat, ask: Ask, probe: nat -> nat, ghost e: Eviction)
      returns (next: Tables, ghost e': Eviction, ghost removed: set<Path>, o: Outcome)
      requires i < |candidates| && Distinct(candidates) && Ongoing(tx, now, candidates[..i], ask, probe, e) && cur == Evict(tx, e.evicted)
      modifies this`files
      ensures files == old(files) - removed
      ensures !o.Aborted? ==> next == Evict(tx, e'.evicted) && PathsOf(e.evicted) + removed == PathsOf(e'.evicted)
      ensures o.Done? ==> Stopped(tx, now, candidates[..i + 1], ask, probe, e')
      ensures o.Failed? ==> o.error == Capacity && Ongoing(tx, now, candidates[..i + 1], ask, probe, e')
      ensures TriedOut(candidates[..i + 1], e')
    {
      hide HasRoom, Evict, PathsOf, ToSet, Distinct;
      var gone;
      next, gone, removed, o := EvictOne(cur, now, candidates[i], ask, probe(i + 1));
      e' := if gone then Eviction(e.evicted + {candidates[i]}, i + 1, Some(e)) else e;
      EvictMore(tx, e.evicted, {candidates[i]});
      TryNext(candidates, i, e);
    }

    /** Evicts candidates in order until there is room, and gives up when every candidate was tried. */
    method EvictUntilRoom(tx: Tables, now: int, candidates: seq<Digest>, ask: Ask, probe: nat -> nat)
      returns (tx': Tables, ghost e: Eviction, ghost n: nat, ghost removed: set<Path>, o: Outcome)
      requires Distinct(candidates) && !HasRoom(tx, now, ask, probe(0))
      modifies this`files
      ensures files == old(files) - removed && n <= |candidates| && TriedOut(candidates[..n], e)
      ensures !o.Aborted? ==> tx' == Evict(tx, e.evicted) && removed == PathsOf(e.evicted)
      ensures o.Done? ==> Stopped(tx, now, candidates[..n], ask, probe, e)
      ensures o.Failed? ==> o.error == Capacity && n == |candidates| && Ongoing(tx, now, candidates[..n], ask, probe, e)
    {
      tx', e, n, removed, o := tx, Eviction({}, 0, None), 0, {}, Failed(Capacity);
      EvictNone(tx, files);
      for i := 0 to |candidates|
        invariant n == i && files == old(files) - removed && o == Failed(Capacity)
        invariant tx' == Evict(tx, e.evicted) && removed == PathsOf(e.evicted)
        invariant Ongoing(tx, now, candidates[..i], ask, probe, e)
      {
        ghost var more;
        tx', e, more, o := EvictNext(tx, tx', now, candidates, i, ask, probe, e);
        RemoveTwice(old(files), removed, more);
        removed, n := removed + more, i + 1;
        if !o.Failed? {
          return;
        }
      }
    }

    method EvictInOrder(tx: Tables, now: int, priority: nat, ask: Ask, probe: nat -> nat)
      returns (tx': Tables, ghost tried: seq<Digest>, ghost e: Eviction, ghost removed: set<Path>, o: Outcome)
      requires !HasRoom(tx, now, ask, probe(0))
      modifies this`files
      ensures files == old(files) - removed && EvictionPrefix(tx, now, priority, tried) && TriedOut(tried, e)
      ensures !o.Aborted? ==> tx' == Evict(tx, e.evicted) && removed == PathsOf(e.evicted)
      ensures o.Done? ==> Stopped(tx, now, tried, ask, probe, e)
      ensures o.Failed? ==> o.error == Capacity && EvictionList(tx, now, priority, tried) && Ongoing(tx, now, tried, ask, probe, e)
    {
      var candidates := EvictionCandidates(tx, now, priority);
      ghost var n;
      tx', e, n, removed, o := EvictUntilRoom(tx, now, candidates, ask, probe);
      tried := candidates[..n];
      PrefixOfList(tx, now, priority, candidates, n);
    }

    /** Lower tiers first, then oldest use, then larger payloads; never a higher tier than the
        incoming image. Under pressure it evicts down to the low watermark, and no blob more than that
        takes. It fails only when all of the first 128 candidates were tried, each was evicted or
        refused by the file system, and there still is no room. */
    method MakeRoom(tx: Tables, now: int, priority: nat, need: nat, protectedNeed: nat, probe: nat -> nat)
      returns (tx': Tables, ghost tried: seq<Digest>, ghost e: Eviction, ghost removed: set<Path>, o: Outcome)
      modifies this`files
      ensures files == old(files) - removed && EvictionPrefix(tx, now, priority, tried) && TriedOut(tried, e)
      ensures !o.Aborted? ==> tx' == Evict(tx, e.evicted) && removed == PathsOf(e.evicted)
      ensures o.Done? ==>
                && TotalBytes(tx') + need <= opts.maxBytes
                && (TotalBytes(tx) + need > opts.maxBytes ==> TotalBytes(tx') <= opts.lowWatermarkBytes)
                && (protectedNeed == 0 || ProtectedBytes(tx', now) + protectedNeed <= opts.protectedBytes)
      ensures
        var ask := AskFor(opts, TotalBytes(tx), need, protectedNeed);
        && (HasRoom(tx, now, ask, probe(0)) ==> tried == [] && !o.Failed?)
        && (!o.Aborted? ==> (o.Done? <==> HasRoom(tx', now, ask, probe(e.at))))
        && (o.Done? ==> tried == [] || Stopped(tx, now, tried, ask, probe, e))
        && (o.Failed? ==> o.error == Capacity && EvictionList(tx, now, priority, tried) && Ongoing(tx, now, tried, ask, probe, e))
    {
      var st;
      st, o := GatherStats(tx, now, probe(0));
      var ask := AskFor(opts, st.total, need, protectedNeed);
      if o.Done? && !RoomFor(opts, st, ask) {
        tx', tried, e, removed, o := EvictInOrder(tx, now, priority, ask, probe);
      } else {
        tx', tried, e, removed := tx, [], Eviction({}, 0, None), {};
        EvictNone(tx, files);
      }
    }

    // ---- Recovery ---------------------------------------------------------------------

    /** Visits one file of the walk; counted means it stays and is charged as untracked. */
    method WalkFile(tx: Tables, p: Path) returns (counted: bool, o: Outcome)
      requires p in files
      modifies this`files
      ensures files == old(files) || files == old(files) - {p}
      ensures o.Done? || o.Aborted?
      ensures o.Done? ==>
                if Kept(tx, p, |old(files)[p]|) then files == old(files) && counted == (p.Outside? && !Active(tx, p))
                else files == (if counted then old(files) else old(files) - {p}) && (counted ==> p in refuses && !p.Outside?)
      ensures o.Done? && counted ==> !Active(tx, p)
    {
      counted := false;
      o := Statement();
      if o.Aborted? || Active(tx, p) || RecordedSize(tx, p, |files[p]|) {
        return;
      }
      if !p.Outside? {
        ghost var removed;
        removed, o := Unlink(p);
        if !o.Failed? {
          return;
        }
      }
      counted, o := true, Done;
    }

    /** Removes every namespace file that neither a reservation nor a blob row accounts for. */
    method WalkFiles(tx: Tables) returns (untracked: nat, ghost stuck: set<Path>, o: Outcome)
      modifies this`files
      ensures SubFiles(files, old(files)) && stuck <= refuses
      ensures o.Done? || o.Aborted?
      ensures o.Done? ==> files == Walked(tx, old(files), stuck)
      ensures o.Done? ==> untracked == Sum(UntrackedSizes(tx, old(files), stuck))
    {
      hide Kept, Walked, UntrackedSizes;
      ghost var before := files;
      var todo := files.Keys;
      untracked, stuck, o := 0, {}, Done;
      WalkStarts(tx, before);
      while todo != {}
        invariant stuck <= refuses && o.Done? && SubFiles(files, before)
        invariant WalkedSoFar(tx, before, files, todo, stuck)
        invariant untracked == Sum(UntrackedSizes(tx, before - todo, stuck))
        decreases |todo|
      {
        var p :| p in todo;
        var size := |files[p]|;
        ghost var was := files;
        var counted;
        counted, o := WalkFile(tx, p);
        if o.Aborted? {
          return;
        }
        ghost var stuck' := if counted && !p.Outside? then stuck + {p} else stuck;
        UntrackedStep(tx, before, todo, p, stuck, stuck', counted);
        WalkStep(tx, before, was, files, todo, p, stuck, stuck');
        if counted {
          untracked := untracked + size;
        }
        stuck, todo := stuck', todo - {p};
      }
      WalkEnds(tx, before, files, stuck);
      assert before - todo == before;
    }

    /** Retires the rows of blobs whose file is missing, in batches of 512 rows. */
    method RetireMissing(tx: Tables) returns (tx': Tables, o: Outcome)
      ensures o.Done? || o.Aborted?
      ensures o.Done? ==> tx' == Evict(tx, MissingBlobs(tx, files))
    {
      tx', o := tx, Done;
      var rest := tx.blobs.Keys;
      ghost var gone: set<Digest> := {};
      while true
        invariant rest <= tx.blobs.Keys && tx' == Evict(tx, gone)
        invariant gone == set d | d in tx.blobs && d !in rest && BlobPath(d) !in files
        decreases |rest|
      {
        var batch := Batch(rest, 512);
        var missing := set d | d in batch && BlobPath(d) !in files;
        EvictMore(tx, gone, missing);
        tx', gone := Evict(tx', missing), gone + missing;
        o := Statement();
        rest := rest - batch;
        if o.Aborted? {
          return;
        }
        if |batch| < 512 {
          assert gone == MissingBlobs(tx, files);
          return;
        }
      }
    }

    /** Expires reservations and variants and removes what nothing references any more. */
    method SweepExpired(now: int) returns (tx: Tables, ghost removed: set<Path>, o: Outcome)
      modifies this`files
      ensures files == old(files) - removed
      ensures o.Done? ==> tx == Swept(db, now) && files == SweptFiles(db, old(files), now)
      ensures o.Failed? ==> o.error == Unavailable && refuses != {}
    {
      tx, removed, o := CleanExpired(db, now);
      if !o.Done? {
        return;
      }
      tx := DeleteVariants(tx, ExpiredVariants(tx, now));
      o := Statement();
      if o.Done? {
        ghost var more;
        tx, more, o := RemoveUnreferenced(tx);
        RemoveTwice(old(files), removed, more);
        removed := removed + more;
      }
    }

    /** The stages of recovery up to its commit. */
    method Reconcile(now: int) returns (tx: Tables, ghost stuck: set<Path>, o: Outcome)
      modifies this`files
      ensures SubFiles(files, old(files)) && stuck <= refuses
      ensures o.Done? ==> tx == RecoveredTables(db, old(files), now, stuck) && files == RecoveredFiles(db, old(files), now, stuck)
      ensures o.Failed? ==> o.error == Unavailable && refuses != {}
    {
      stuck := {};
      var untracked;
      ghost var removed;
      tx, removed, o := SweepExpired(now);
      if !o.Done? {
        return;
      }
      ghost var swept := files;
      untracked, stuck, o := WalkFiles(tx);
      if !o.Done? {
        return;
      }
      tx, o := RetireMissing(tx);
      tx := tx.(untracked := untracked);
    }

    method Recover(now: int) returns (ghost stuck: set<Path>, o: Outcome)
      requires Valid()
      modifies this`files, this`db, this`latest, this`ready
      ensures Valid() && latest == old(latest)
      ensures o.Done? ==>
                && ready
                && db == RecoveredTables(old(db), old(files), now, stuck)
                && files == RecoveredFiles(old(db), old(files), now, stuck)
      ensures stuck <= refuses
      ensures o.Done? && (stuck == {} || refuses == {}) ==> Reconciled(db, files, now)
      ensures o.Failed? ==> o.error == Unavailable && refuses != {}
      ensures OwnBytes(db) <= OwnBytes(old(db))
    {
      hide RecoveredTables, RecoveredFiles, Reconciled, Safe, OwnBytes;
      ready := false;
      var tx;
      tx, stuck, o := Reconcile(now);
      SafeSub(db, old(files), files, alien, latest);
      if o.Done? {
        RecoveredSafe(db, old(files), alien, latest, now, stuck);
        RecoveredReservations(db, old(files), now, stuck);
        o := CommitTx(tx, latest);
        if o.Done? {
          ready := true;
          assert refuses == {} ==> stuck == {};
          RecoveryReconciles(old(db), old(files), now);
        }
      }
    }

    // ---- Admission --------------------------------------------------------------------

    /** A working copy of the index that may be committed with the current directory. */
    ghost predicate Ready(tx: Tables)
      reads this
    {
      Safe(tx, files, alien, latest) && Handles(tx) && TotalBytes(tx) <= TotalBytes(db) && tx.untracked == db.untracked
    }

    method ExpireSome(now: int) returns (tx: Tables, pending: bool, ghost pruned: set<Key>, o: Outcome)
      requires Valid()
      modifies this`files
      ensures Valid()
      ensures o.Done? ==> Ready(tx) && ExpiredReservations(tx, now) == {} && tx == DeleteVariants(Unreserved(db, now), pruned)
      ensures o.Done? ==> pruned <= ExpiredVariants(Unreserved(db, now), now) && |pruned| == Min(128, |ExpiredVariants(Unreserved(db, now), now)|)
      ensures o.Failed? ==> o.error == Unavailable && refuses != {}
    {
      hide Safe, OwnBytes;
      pending, pruned := false, {};
      ghost var removed;
      tx, removed, o := CleanExpired(db, now);
      SafeShrink(db, old(files), removed, alien, latest);
      if !o.Done? {
        return;
      }
      ReleaseSafe(db, old(files), alien, latest, ExpiredReservations(db, now));
      ghost var released := tx;
      tx, pending, pruned, o := PruneExpiredBatch(tx, now);
      DeleteVariantsSafe(released, files, alien, latest, pruned);
    }

    method Evicting(tx: Tables, now: int, priority: nat, need: nat, protectedNeed: nat, probe: nat -> nat)
      returns (tx': Tables, ghost tried: seq<Digest>, ghost e: Eviction, o: Outcome)
      requires Valid() && Ready(tx)
      modifies this`files
      ensures Valid()
      ensures !o.Aborted? ==> Ready(tx') && tx'.reservations == tx.reservations
      ensures !o.Aborted? && UnreferencedBlobs(tx) == {} ==> UnreferencedBlobs(tx') == {}
      ensures o.Done? ==> TotalBytes(tx') + need <= opts.maxBytes
      ensures o.Done? && protectedNeed > 0 ==> ProtectedBytes(tx', now) + protectedNeed <= opts.protectedBytes
      ensures !o.Aborted? ==> tx' == Evict(tx, e.evicted) && Attempted(tx, now, priority, tried, e)
      ensures o.Failed? ==> o.error == Capacity && EvictionList(tx, now, priority, tried)
      ensures !o.Aborted? ==> (o.Done? <==> HasRoom(tx', now, AskFor(opts, TotalBytes(tx), need, protectedNeed), probe(e.at)))
    {
      hide Safe, EvictionPrefix, EvictionList, HasRoom, OwnBytes, ProtectedBytes, UnreferencedBlobs;
      ghost var removed;
      tx', tried, e, removed, o := MakeRoom(tx, now, priority, need, protectedNeed, probe);
      SafeShrink(db, old(files), removed, alien, latest);
      EvictSafe(tx, old(files), alien, latest, e.evicted);
      assert UnreferencedBlobs(tx) == {} ==> UnreferencedBlobs(Evict(tx, e.evicted)) == {} by {
        if UnreferencedBlobs(tx) == {} {
          EvictMissing(tx, e.evicted);
        }
      }
    }

    /** The first blobs in eviction order were tried, and each went or was refused. */
    ghost predicate Attempted(tx: Tables, now: int, priority: nat, tried: seq<Digest>, e: Eviction)
      reads this`refuses
    {
      EvictionPrefix(tx, now, priority, tried) && e.evicted <= ToSet(tried) && Refused(tried, e.evicted)
    }

    /** Why a reservation is refused for capacity: as many as allowed are open, and nothing changes;
        or every blob of the batch it may displace was tried, each went or the file system refused to
        remove it, and what is left exceeds the budget, the low watermark if the budget was exceeded to
        begin with, what the file system has, or the protected quota. What went stays gone. */
    ghost predicate OutOfCapacity(work: Work, priority: nat, now: int, probe: nat -> nat, t: Tables)
      reads this`refuses
    {
      var open := Unreserved(work.start, now);
      var tx := DeleteVariants(open, work.pruned);
      if |open.reservations| >= opts.maxReservations then t == work.start
      else
        && IsBatch(work.pruned, ExpiredVariants(open, now)) && EvictionList(tx, now, priority, work.tried)
        && work.evicted <= ToSet(work.tried) && Refused(work.tried, work.evicted) && t == Evict(tx, work.evicted)
        && (|| TotalBytes(t) + 8393728 > opts.maxBytes
            || (TotalBytes(tx) + 8393728 > opts.maxBytes && TotalBytes(t) > opts.lowWatermarkBytes)
            || probe(work.at) < opts.minFreeBytes + Reserved(t) + 8393728
            || (priority == 3 && ProtectedBytes(t, now) + 8393728 > opts.protectedBytes))
    }

    /** Decides on a reservation. keep says whether what was done so far is to be committed; probe(i)
        is what the file system has left after i evictions were tried. */
    method Admit(priority: nat, now: int, probe: nat -> nat) returns (tx: Tables, keep: bool, ghost work: Work, o: Outcome)
      requires Valid()
      modifies this`files
      ensures Valid() && work.start == db
      ensures keep || o.Done? ==> Ready(tx)
      ensures o.Failed? ==> o.error == Capacity || (o.error == Unavailable && refuses != {})
      ensures keep ==> o == Failed(Capacity)
      ensures o == Failed(Capacity) ==> OutOfCapacity(work, priority, now, probe, if keep then tx else db)
      ensures o.Done? ==> TotalBytes(tx) + RESERVATION_BYTES <= opts.maxBytes && |tx.reservations| < opts.maxReservations
      ensures o.Done? ==> ExpiredReservations(tx, now) == {} && probe(work.at) >= opts.minFreeBytes + Reserved(tx) + RESERVATION_BYTES
      ensures o.Done? && priority == PROTECTED ==> ProtectedBytes(tx, now) + RESERVATION_BYTES <= opts.protectedBytes
    {
      hide Safe, OwnBytes, ProtectedBytes, EvictionPrefix, EvictionList, Refused;
      keep := false;
      var pending, st;
      ghost var pruned;
      work := Work(db, {}, [], {}, 0);
      tx, pending, pruned, o := ExpireSome(now);
      if !o.Done? {
        return;
      }
      st, o := GatherStats(tx, now, probe(0));
      if !o.Done? {
        return;
      }
      if st.reservations >= opts.maxReservations {
        o := Failed(Capacity);
        return;
      }
      ghost var tried, e;
      tx, tried, e, o := Evicting(tx, now, priority, RESERVATION_BYTES, if priority == PROTECTED then RESERVATION_BYTES else 0, probe);
      work := Work(db, pruned, tried, e.evicted, e.at);
      keep := o.Failed?;
    }

    method Ensure(now: int) returns (o: Outcome)
      requires Valid()
      modifies this`files, this`db, this`latest, this`ready
      ensures Valid() && latest == old(latest)
      ensures old(ready) ==> o.Done? && db == old(db) && files == old(files) && ready
      ensures o.Failed? ==> o.error == Unavailable && refuses != {}
      ensures OwnBytes(db) <= OwnBytes(old(db))
    {
      if ready {
        o := Done;
      } else {
        ghost var stuck;
        stuck, o := Recover(now);
      }
    }

    /** Reserves capacity for one transfer before its body is read. */
    method Reserve(key: Key, priority: int, id: ReservationId, now: int, probe: nat -> nat) returns (ghost work: Work, o: Outcome)
      requires Valid() && id !in issued
      modifies this`files, this`db, this`latest, this`ready, this`issued, this`unstaged
      ensures Valid() && latest == old(latest)
      ensures issued == old(issued) + {id} && unstaged == old(unstaged) + {id}
      ensures o == Failed(BadReservation) <==> !(DigestKey(key) && LOW <= priority <= PROTECTED)
      ensures o == Failed(BadReservation) ==> db == old(db) && files == old(files)
      ensures o.Failed? && o.error == Unavailable ==> refuses != {}
      ensures o == Failed(Capacity) ==> 0 <= priority && OutOfCapacity(work, priority, now, probe, db)
      ensures old(ready) ==> work.start == old(db)
      ensures o.Done? ==>
                && id in db.reservations
                && db.reservations[id] == Reservation(8393728, priority, now + 120, None)
                && TotalBytes(db) <= opts.maxBytes && |db.reservations| <= opts.maxReservations && ExpiredReservations(db, now) == {}
                && probe(work.at) >= opts.minFreeBytes + Reserved(db)
                && (priority == PROTECTED ==> ProtectedBytes(db, now) <= opts.protectedBytes)
      ensures old(ready) ==> ready && (TotalBytes(db) <= opts.maxBytes || TotalBytes(db) <= TotalBytes(old(db)))
      ensures OwnBytes(db) <= opts.maxBytes || OwnBytes(db) <= OwnBytes(old(db))
    {
      hide Safe, OwnBytes, ProtectedBytes;
      issued, unstaged, work := issued + {id}, unstaged + {id}, Work(db, {}, [], {}, 0);
      if !DigestKey(key) || !(LOW <= priority <= PROTECTED) {
        o := Failed(BadReservation);
        return;
      }
      o := Ensure(now);
      if o.Done? {
        work, o := ReserveLocked(priority, id, now, probe);
      }
    }

    method ReserveLocked(priority: nat, id: ReservationId, now: int, probe: nat -> nat) returns (ghost work: Work, o: Outcome)
      requires Valid() && id in issued
      modifies this`files, this`db, this`latest
      ensures Valid() && latest == old(latest) && work.start == old(db)
      ensures o.Failed? ==> o.error == Capacity || (o.error == Unavailable && refuses != {})
      ensures o == Failed(Capacity) ==> OutOfCapacity(work, priority, now, probe, db)
      ensures o.Done? ==>
                && id in db.reservations
                && db.reservations[id] == Reservation(8393728, priority, now + 120, None)
                && TotalBytes(db) <= opts.maxBytes && |db.reservations| <= opts.maxReservations && ExpiredReservations(db, now) == {}
                && probe(work.at) >= opts.minFreeBytes + Reserved(db)
                && (priority == PROTECTED ==> ProtectedBytes(db, now) <= opts.protectedBytes)
      ensures TotalBytes(db) <= opts.maxBytes || TotalBytes(db) <= TotalBytes(old(db))
      ensures OwnBytes(db) <= opts.maxBytes || OwnBytes(db) <= OwnBytes(old(db))
    {
      hide Safe, OwnBytes, ProtectedBytes, OutOfCapacity, Reserved;
      var tx, keep;
      tx, keep, work, o := Admit(priority, now, probe);
      if keep {
        var committed := CommitTx(tx, latest);
        o := if committed.Done? then o else Aborted;
      } else if o.Done? && id in tx.reservations {
        o := Aborted;
      } else if o.Done? {
        InsertEffect(tx, files, alien, latest, id, priority, now);
        o := CommitTx(InsertReservation(tx, id, priority, now), latest);
      }
    }

    // ---- Publication ------------------------------------------------------------------

    /** Records the candidate durably before any file is published. */
    method StageCommit(id: ReservationId, body: Bytes, now: int) returns (o: Outcome)
      requires Valid() && ValidBody(body) && id in unstaged
      modifies this`db, this`latest, this`unstaged
      ensures Valid() && latest == old(latest) && unstaged == old(unstaged) - {id}
      ensures TotalBytes(db) == TotalBytes(old(db)) && OwnBytes(db) == OwnBytes(old(db))
      ensures o.Failed? <==> id !in old(db).reservations || old(db).reservations[id].expires <= now
      ensures o.Failed? ==> o.error == BadReservation && db == old(db)
      ensures o.Done? ==>
                var r := old(db).reservations[id];
                db == old(db).(reservations := old(db).reservations[id := Reservation(r.bytes, r.priority, r.expires, Some(Sha256(body)))])
    {
      hide Safe, OwnBytes;
      unstaged := unstaged - {id};
      if id !in db.reservations || db.reservations[id].expires <= now {
        return Failed(BadReservation);
      }
      StageSafe(db, files, alien, latest, id, body);
      StageKeepsCharge(db, id, Sha256(body));
      o := CommitTx(SetCandidate(db, id, Sha256(body)), latest);
    }

    /** Puts the body at its blob path: an existing file is kept only if it really matches. */
    method PlaceBlob(id: ReservationId, body: Bytes) returns (o: Outcome)
      requires Valid() && ValidBody(body)
      requires id in db.reservations && db.reservations[id].candidate == Some(Sha256(body))
      modifies this`files, this`alien
      ensures Valid() && alien <= old(alien) && (o.Done? ==> alien == old(alien) - {BlobPath(Sha256(body))})
      ensures o.Done? ==> BlobPath(Sha256(body)) in files && files[BlobPath(Sha256(body))] == body
      ensures o.Failed? ==> o.error == Unavailable
    {
      hide Safe;
      var d := Sha256(body);
      assert HasCandidate(db, d);
      o := WriteTemp(id, body);
      SafeElsewhere(db, old(files), files, alien, latest);
      if !o.Done? {
        return;
      }
      if BlobPath(d) !in files || Sha256(files[BlobPath(d)]) != d {
        ghost var before, removed := files, {};
        removed, o := Unlink(BlobPath(d));
        SafeShrink(db, before, removed, alien, latest);
        if !o.Done? {
          return;
        }
        NotAlien(db, files, alien, latest, d);
        alien := alien - {BlobPath(d)};
        MoveSafe(db, files, alien, latest, d, TmpPath(id));
        o := Rename(id, d);
      } else {
        NotAlien(db, files, alien, latest, d);
        alien := alien - {BlobPath(d)};
      }
    }

    /** The reference transaction's statements after the file is in place. */
    method ReferenceRows(id: ReservationId, key: Key, priority: nat, image: Image, now: int) returns (tx: Tables, o: Outcome)
      requires Valid() && ValidBody(image.body) && priority <= PROTECTED
      requires id in db.reservations && db.reservations[id].candidate == Some(Sha256(image.body))
      requires BlobPath(Sha256(image.body)) in files && files[BlobPath(Sha256(image.body))] == image.body
      modifies this`files
      ensures Valid()
      ensures o.Done? ==> tx == Committed(db, id, key, image, priority, now)
      ensures o.Failed? ==> o.error == Unavailable
      ensures o.Done? ==>
                && Safe(tx, files, alien, latest[key := image]) && Handles(tx) && TotalBytes(tx) <= TotalBytes(db) && tx.untracked == db.untracked
                && key in tx.variants && tx.variants[key].digest == Sha256(image.body) && tx.variants[key].contentType == image.contentType
                && BlobPath(Sha256(image.body)) in files && files[BlobPath(Sha256(image.body))] == image.body
    {
      hide Safe, OwnBytes;
      var published := Publish(db, id, key, image, priority, now);
      var gone := Superseded(db, published, key, Sha256(image.body));
      ghost var removed;
      tx, removed, o := RemoveBatch(published, gone);
      assert Valid() by {
        SafeShrink(db, old(files), removed, alien, latest);
      }
      if o.Done? {
        PublishEffect(db, old(files), alien, latest, id, key, image, priority, now, published, gone);
        PublishStays(db, id, key, image, priority, now);
      }
    }

    /** The key reads as the image: a live reference whose file holds exactly its body. */
    ghost predicate Published(key: Key, image: Image)
      reads this
    {
      && key in latest && latest[key] == image
      && key in db.variants && db.variants[key].digest == Sha256(image.body) && db.variants[key].contentType == image.contentType
      && BlobPath(Sha256(image.body)) in files && files[BlobPath(Sha256(image.body))] == image.body
    }

    /** The reservation is there, has not expired and holds this body as its candidate. */
    ghost predicate Holds(id: ReservationId, body: Bytes, now: int)
      reads this`db
    {
      id in db.reservations && db.reservations[id].expires > now && db.reservations[id].candidate == Some(Sha256(body))
    }

    /** free is what the file system reports. */
    method PublishCommit(id: ReservationId, key: Key, priority: nat, image: Image, now: int, free: nat) returns (o: Outcome)
      requires Valid() && ValidBody(image.body) && priority <= PROTECTED
      modifies this`files, this`db, this`latest, this`alien
      ensures Valid() && TotalBytes(db) <= TotalBytes(old(db)) && OwnBytes(db) <= OwnBytes(old(db))
      ensures latest == old(latest) || latest == old(latest)[key := image]
      ensures alien <= old(alien) && (o.Done? ==> BlobPath(Sha256(image.body)) !in alien)
      ensures o.Done? ==> Published(key, image) && PublishedRows(old(db), db, id, key, image, priority, now)
      ensures o == Failed(BadReservation) <==> !old(Holds(id, image.body, now))
      ensures o == Failed(Capacity) <==> old(Holds(id, image.body, now)) && free < opts.minFreeBytes + |image.body|
      ensures o.Failed? ==> o.error != BadImage && db == old(db) && latest == old(latest)
    {
      hide Safe, Committed, OwnBytes, PublishedRows;
      if id !in db.reservations || db.reservations[id].expires <= now
         || db.reservations[id].candidate != Some(Sha256(image.body)) {
        return Failed(BadReservation);
      }
      if free < opts.minFreeBytes + |image.body| {
        return Failed(Capacity);
      }
      o := PlaceBlob(id, image.body);
      if o.Done? {
        var tx;
        tx, o := ReferenceRows(id, key, priority, image, now);
        if o.Done? {
          PublishMeans(db, id, key, image, priority, now);
          o := CommitTx(tx, latest[key := image]);
        }
      }
      if !o.Aborted? {
        ghost var before, removed := files, {};
        var ignored;
        removed, ignored := Unlink(TmpPath(id));
        SafeShrink(db, before, removed, alien, latest);
      }
    }

    method Cancel(id: ReservationId) returns (o: Outcome)
      requires Valid()
      modifies this`files, this`db, this`latest
      ensures Valid() && latest == old(latest) && TotalBytes(db) <= TotalBytes(old(db)) && OwnBytes(db) <= OwnBytes(old(db))
      ensures o.Done? ==> id !in db.reservations && TmpPath(id) !in files
    {
      hide Safe, OwnBytes;
      var tx;
      ghost var removed;
      tx, removed, o := ReleaseReservation(db, id);
      SafeShrink(db, old(files), removed, alien, latest);
      if o.Done? {
        ReleaseSafe(db, old(files), alien, latest, {id});
        o := CommitTx(tx, latest);
      }
    }

    // ---- Reading and maintenance --------------------------------------------------------

    /** A lookup. A hit is exactly the image last committed for the key. */
    method GetContext(key: Key, now: int, clock: int) returns (hit: Option<Image>, o: Outcome)
      requires Valid()
      modifies this`files, this`db, this`latest, this`ready
      ensures Valid() && latest == old(latest)
      ensures hit.Some? ==> key in latest && hit.value == latest[key]
      ensures !DigestKey(key) ==> hit == None
      ensures old(ready) ==> ready && files == old(files) && TotalBytes(db) == TotalBytes(old(db))
      ensures OwnBytes(db) <= OwnBytes(old(db))
      ensures old(ready) && DigestKey(key) && o.Done? ==>
                (hit.Some? <==> && key in old(db).variants && old(db).variants[key].expires > now
                                && BlobPath(old(db).variants[key].digest) in files
                                && files[BlobPath(old(db).variants[key].digest)] == old(db).variants[key].digest.content)
      ensures old(ready) && hit.Some? ==>
                && key in old(db).variants
                && var v := old(db).variants[key];
                   db == if clock - v.accessed < 60 then old(db)
                         else old(db).(variants := old(db).variants[key := Variant(v.digest, v.contentType, v.priority, v.expires, now)])
    {
      hide Safe, OwnBytes;
      hit, o := None, Done;
      if !DigestKey(key) {
        return;
      }
      o := Ensure(now);
      if !o.Done? || key !in db.variants || !Live(db.variants[key], now) {
        return;
      }
      var v, tx := db.variants[key], db;
      HitIsLatest(db, files, alien, latest, key);
      if BlobPath(v.digest) !in files || |files[BlobPath(v.digest)]| != db.blobs[v.digest] || Sha256(files[BlobPath(v.digest)]) != v.digest {
        return;
      }
      if clock - v.accessed >= ACCESS_REFRESH {
        TouchSafe(db, files, alien, latest, key, now);
        tx := Touch(db, key, now);
      }
      o := CommitTx(tx, latest);
      if o.Done? {
        hit := Some(Image(v.contentType, files[BlobPath(v.digest)]));
      }
    }

    /** Bounded maintenance: expiry, unreferenced blobs, and eviction under pressure. It ends within
        the budget, or has tried to evict the first 128 blobs in eviction order; what it tried and
        did not evict, the file system refused to remove. */
    method Sweep(now: int) returns (ghost work: Work, o: Outcome)
      requires Valid()
      modifies this`files, this`db, this`latest, this`ready
      ensures Valid() && latest == old(latest)
      ensures old(ready) ==> ready && TotalBytes(db) <= TotalBytes(old(db)) && work.start == old(db)
      ensures OwnBytes(db) <= OwnBytes(old(db))
      ensures o.Done? ==> ExpiredReservations(db, now) == {} && UnreferencedBlobs(db) == {}
      ensures o.Done? ==> SweepDone(work, now, opts.maxBytes, db) && Refused(work.tried, work.evicted)
    {
      hide Safe, SweepDone, Refused, OwnBytes, TotalBytes, ExpiredReservations, UnreferencedBlobs;
      work := Work(db, {}, [], {}, 0);
      o := Ensure(now);
      if o.Done? {
        work, o := SweepLocked(now);
      }
    }

    method SweepLocked(now: int) returns (ghost work: Work, o: Outcome)
      requires Valid()
      modifies this`files, this`db, this`latest
      ensures Valid() && latest == old(latest) && work.start == old(db)
      ensures TotalBytes(db) <= TotalBytes(old(db)) && OwnBytes(db) <= OwnBytes(old(db))
      ensures o.Done? ==> ExpiredReservations(db, now) == {} && UnreferencedBlobs(db) == {}
      ensures o.Done? ==> SweepDone(work, now, opts.maxBytes, db) && Refused(work.tried, work.evicted)
    {
      hide Safe, Tidied, Evict, EvictionPrefix, EvictionList, Refused, UnreferencedBlobs, OwnBytes;
      var tx;
      ghost var pruned, tried, e;
      work := Work(db, {}, [], {}, 0);
      tx, pruned, o := Tidy(now);
      if !o.Done? {
        return;
      }
      tx, tried, e, o := Relieve(tx, now);
      work := Work(db, pruned, tried, e.evicted, e.at);
      if o.Done? {
        o := CommitTx(tx, latest);
      }
    }

    /** Expires reservations and a batch of variants, and drops what nothing references any more. */
    method Tidy(now: int) returns (tx: Tables, ghost pruned: set<Key>, o: Outcome)
      requires Valid()
      modifies this`files
      ensures Valid()
      ensures o.Done? ==> Ready(tx) && ExpiredReservations(tx, now) == {} && UnreferencedBlobs(tx) == {}
      ensures o.Done? ==> IsBatch(pruned, ExpiredVariants(Unreserved(db, now), now)) && tx == Tidied(db, pruned, now)
    {
      hide Safe, Unreserved, DeleteVariants, Evict, UnreferencedBlobs, ExpiredVariants, OwnBytes;
      var pending;
      tx, pending, pruned, o := ExpireSome(now);
      if o.Done? {
        tx, o := DropUnreferenced(tx);
      }
    }

    /** Under pressure on the budget or the file system even protected blobs may go. */
    method Relieve(tx: Tables, now: int) returns (tx': Tables, ghost tried: seq<Digest>, ghost e: Eviction, o: Outcome)
      requires Valid() && Ready(tx) && UnreferencedBlobs(tx) == {}
      modifies this`files
      ensures Valid() && (o.Done? || o.Aborted?)
      ensures o.Done? ==> Ready(tx') && tx'.reservations == tx.reservations && UnreferencedBlobs(tx') == {}
      ensures o.Done? ==> tx' == Evict(tx, e.evicted) && Attempted(tx, now, PROTECTED, tried, e)
      ensures o.Done? ==> TotalBytes(tx') <= opts.maxBytes || EvictionList(tx, now, PROTECTED, tried)
    {
      hide Safe, EvictionList, OwnBytes, UnreferencedBlobs, Evict, EvictBefore, Evictable;
      var st;
      tx', tried, e := tx, [], Eviction({}, 0, None);
      EvictNone(tx, files);
      var free: nat := *;
      st, o := GatherStats(tx, now, free);
      if o.Done? && (st.total > opts.maxBytes || st.free < opts.minFreeBytes + st.reserved) {
        var probe: nat -> nat := *;
        tx', tried, e, o := Evicting(tx, now, PROTECTED, 0, 0, probe);
        o := if o.Failed? then Done else o;
      }
    }

    method DropUnreferenced(tx: Tables) returns (tx': Tables, o: Outcome)
      requires Valid() && Ready(tx)
      modifies this`files
      ensures Valid()
      ensures o.Done? ==> tx' == Evict(tx, UnreferencedBlobs(tx))
      ensures o.Done? ==> Ready(tx') && tx'.reservations == tx.reservations && UnreferencedBlobs(tx') == {}
    {
      hide Safe, OwnBytes;
      ghost var removed;
      UnreferencedAfter(tx, UnreferencedBlobs(tx));
      tx', removed, o := RemoveUnreferenced(tx);
      SafeShrink(db, old(files), removed, alien, latest);
      EvictSafe(tx, old(files), alien, latest, UnreferencedBlobs(tx));
    }

    /** The first 128 blobs of tier Low, least recently used first. */
    method LowCandidates(t: Tables, now: int) returns (digests: set<Digest>)
      ensures LowBatch(t, now, digests)
    {
      var pool := Evictable(t, now, LOW);
      UsedOrder(t, now);
      var rows := Query(pool, (a, b) => UsedNoLater(t, now, a, b), 128);
      DistinctCount(rows, pool);
      digests := ToSet(rows);
      forall d, e | d in digests && e in pool && e !in digests
        ensures UsedNoLater(t, now, d, e)
      {
        var leq := (a, b) => UsedNoLater(t, now, a, b);
        var i :| 0 <= i < |rows| && rows[i] == d;
        assert e !in rows[..i];
        assert leq(rows[i], e);
      }
    }

    /** Removes at most 128 blobs whose every live reference is Low. */
    method EvictLowPriority(now: int) returns (removed: nat, freed: int, o: Outcome)
      requires Valid()
      modifies this`files, this`db, this`latest, this`ready
      ensures Valid() && latest == old(latest)
      ensures old(ready) ==> ready && TotalBytes(db) <= TotalBytes(old(db))
      ensures OwnBytes(db) <= OwnBytes(old(db))
      ensures old(ready) && o.Done? ==>
                OnlyLowRemoved(old(db), db, now) && removed == Min(128, |Evictable(old(db), now, LOW)|) && freed == TotalBytes(old(db)) - TotalBytes(db)
    {
      removed, freed := 0, 0;
      o := Ensure(now);
      if o.Done? {
        removed, freed, o := EvictLowLocked(now);
      }
    }

    method EvictLowLocked(now: int) returns (removed: nat, freed: int, o: Outcome)
      requires Valid()
      modifies this`files, this`db, this`latest
      ensures Valid() && latest == old(latest) && TotalBytes(db) <= TotalBytes(old(db)) && OwnBytes(db) <= OwnBytes(old(db))
      ensures o.Done? ==> OnlyLowRemoved(old(db), db, now) && removed == Min(128, |Evictable(old(db), now, LOW)|) && freed == TotalBytes(old(db)) - TotalBytes(db)
    {
      hide Safe, OwnBytes, OnlyLowRemoved, Evictable;
      var tx, before, after;
      removed, freed := 0, 0;
      var free: nat := *;
      before, o := GatherStats(db, now, free);
      if !o.Done? {
        return;
      }
      var digests := LowCandidates(db, now);
      ghost var gone;
      tx, gone, o := RemoveBatch(db, digests);
      assert Valid() by {
        SafeShrink(db, old(files), gone, alien, latest);
      }
      if !o.Done? {
        return;
      }
      free := *;
      after, o := GatherStats(tx, now, free);
      EvictSafe(db, old(files), alien, latest, digests);
      LowOnly(db, old(files), alien, latest, now, digests);
      if o.Done? {
        o := CommitTx(tx, latest);
        removed, freed := |digests|, before.total - after.total;
      }
    }

    /** The world outside does anything to the directory: files are lost, changed in place or added,
        at blob paths too. */
    method Damage(lost: set<Path>, changed: Files, added: Files)
      requires Valid()
      modifies this`files, this`alien
      ensures Valid() && alien == old(alien) + Planted(changed, added)
      ensures forall p | p in alien - old(alien) ::
                p.BlobPath? && (p in added || (p in changed && |changed[p]| > |p.digest.content|))
      ensures files == Damaged(old(files), lost, changed, added)
    {
      files, alien := Damaged(files, lost, changed, added), alien + Planted(changed, added);
    }

    /** The file system may refuse to remove other files from now on. */
    method Refuse(paths: set<Path>)
      requires Valid()
      modifies this`refuses
      ensures Valid() && refuses == paths
    {
      refuses := paths;
    }

    /** A new process starts over: recovery has to run before the store is used again. */
    method Restart()
      requires Valid()
      modifies this`ready
      ensures Valid()
    {
      ready := false;
    }
  }

  function Damaged(files: Files, lost: set<Path>, changed: Files, added: Files): Files {
    map p | p in files.Keys + added.Keys && p !in lost ::
      if p in added then added[p] else if p in changed then changed[p] else files[p]
  }

  /** Damage can turn any directory into any other, and can lose or change files one by one. */
  lemma DamageIsArbitrary(files: Files, target: Files, p: Path, content: Bytes)
    ensures Damaged(files, files.Keys - target.Keys, map[], target) == target
    ensures Damaged(files, {p}, map[], map[]) == files - {p}
    ensures p in files ==> Damaged(files, {}, map[p := content], map[]) == files[p := content]
  {
  }

  /** The blob paths at which a file was added, or changed into one longer than what was hashed. */
  function Planted(changed: Files, added: Files): set<Path> {
    (set p | p in added && p.BlobPath?) + (set p | p in changed && p.BlobPath? && |changed[p]| > |p.digest.content|)
  }

  /** The blobs an image of the given priority may displace. */
  function Evictable(t: Tables, now: int, priority: nat): set<Digest> {
    set d | d in t.blobs && Tier(t, d, now) <= priority
  }

  /** Those are the blobs without an unexpired reference of higher priority. */
  lemma EvictableMeans(t: Tables, now: int, priority: nat, d: Digest)
    requires forall k | k in t.variants :: t.variants[k].priority <= 3
    ensures d in Evictable(t, now, priority) <==>
              d in t.blobs && forall k | k in t.variants && t.variants[k].digest == d && t.variants[k].expires > now :: t.variants[k].priority <= priority
  {
    hide Tier;
    TierIsHighest(t, d, now);
  }

  /** As many of the blobs of tier Low as a batch holds, and none used after one that is left. */
  ghost predicate LowBatch(t: Tables, now: int, digests: set<Digest>) {
    && digests <= Evictable(t, now, LOW) && |digests| == Min(128, |Evictable(t, now, LOW)|)
    && forall d, e | d in digests && e in Evictable(t, now, LOW) && e !in digests :: UsedNoLater(t, now, d, e)
  }

  /** What one section worked on, expired and tried to evict, and after how many tries it last tested
      for room. */
  datatype Work = Work(start: Tables, pruned: set<Key>, tried: seq<Digest>, evicted: set<Digest>, at: nat)

  ghost function Tidied(start: Tables, pruned: set<Key>, now: int): Tables {
    var t := DeleteVariants(Unreserved(start, now), pruned);
    Evict(t, UnreferencedBlobs(t))
  }

  ghost predicate IsBatch<T>(batch: set<T>, pool: set<T>) {
    batch <= pool && |batch| == Min(128, |pool|)
  }

  ghost predicate SweepDone(work: Work, now: int, budget: nat, t: Tables) {
    var tidied := Tidied(work.start, work.pruned, now);
    && IsBatch(work.pruned, ExpiredVariants(Unreserved(work.start, now), now))
    && t == Evict(tidied, work.evicted) && work.evicted <= ToSet(work.tried) && EvictionPrefix(tidied, now, PROTECTED, work.tried)
    && (TotalBytes(t) <= budget || EvictionList(tidied, now, PROTECTED, work.tried))
  }

  /** Blobs that went had tier Low, none was used after a blob of tier Low that stayed, and the
      references that went were expired or Low. */
  ghost predicate OnlyLowRemoved(before: Tables, after: Tables, now: int) {
    && (forall d, e | d in before.blobs && d !in after.blobs && e in after.blobs && Tier(before, e, now) == LOW :: UsedNoLater(before, now, d, e))
    && (forall d | d in before.blobs && d !in after.blobs :: Tier(before, d, now) == LOW)
    && (forall k | k in before.variants && k !in after.variants ::
          !Live(before.variants[k], now) || before.variants[k].priority == LOW)
  }

  lemma LowOnly(t: Tables, files: Files, alien: set<Path>, latest: map<Key, Image>, now: int, ds: set<Digest>)
    requires Safe(t, files, alien, latest) && LowBatch(t, now, ds)
    ensures OnlyLowRemoved(t, Evict(t, ds), now)
  {
    forall k | k in t.variants && k !in Evict(t, ds).variants && Live(t.variants[k], now)
      ensures t.variants[k].priority == LOW
    {
      var d := t.variants[k].digest;
      assert Refers(t, k, d, now);
      assert HasLive(t, d, t.variants[k].priority, now);
    }
  }

  /** The files visited so far stay exactly if they are kept or stuck. */
  ghost predicate WalkedSoFar(t: Tables, before: Files, files: Files, todo: set<Path>, stuck: set<Path>) {
    && todo <= before.Keys && todo <= files.Keys && stuck !! todo
    && forall p | p in before && p !in todo :: p in files <==> Kept(t, p, |before[p]|) || p in stuck
  }

  lemma WalkStarts(t: Tables, files: Files)
    ensures WalkedSoFar(t, files, files, files.Keys, {}) && Sum(UntrackedSizes(t, files - files.Keys, {})) == 0
  {
    assert UntrackedSizes(t, files - files.Keys, {}) == map[];
  }

  lemma WalkStep(t: Tables, before: Files, was: Files, files: Files, todo: set<Path>, p: Path, stuck: set<Path>, stuck': set<Path>)
    requires WalkedSoFar(t, before, was, todo, stuck) && p in todo && (files == was || files == was - {p})
    requires p in files <==> Kept(t, p, |before[p]|) || p in stuck'
    requires stuck' == stuck || stuck' == stuck + {p}
    ensures WalkedSoFar(t, before, files, todo - {p}, stuck')
  {
  }

  lemma WalkEnds(t: Tables, before: Files, files: Files, stuck: set<Path>)
    requires WalkedSoFar(t, before, files, {}, stuck) && SubFiles(files, before)
    ensures files == Walked(t, before, stuck)
  {
  }

  /** One more file visited: it joins the untracked sum exactly if it was counted. */
  lemma UntrackedStep(t: Tables, files: Files, todo: set<Path>, p: Path, stuck: set<Path>, stuck': set<Path>, counted: bool)
    requires p in todo && todo <= files.Keys && stuck !! todo
    requires stuck' == if counted && !p.Outside? then stuck + {p} else stuck
    requires counted ==> !Active(t, p)
    requires Kept(t, p, |files[p]|) ==> counted == (p.Outside? && !Active(t, p))
    ensures Sum(UntrackedSizes(t, files - (todo - {p}), stuck')) ==
            Sum(UntrackedSizes(t, files - todo, stuck)) + if counted then |files[p]| else 0
  {
    var was, became := UntrackedSizes(t, files - todo, stuck), UntrackedSizes(t, files - (todo - {p}), stuck');
    if counted {
      SumInsert(was, p, |files[p]|);
      assert became == was[p := |files[p]|];
    } else {
      assert became == was;
    }
  }

  /** The first blobs in eviction order, none above the given tier. */
  ghost predicate EvictionPrefix(tx: Tables, now: int, priority: nat, tried: seq<Digest>) {
    && Distinct(tried) && |tried| <= 128
    && (forall i | 0 <= i < |tried| :: tried[i] in Evictable(tx, now, priority))
    && (forall i, e | 0 <= i < |tried| && e in tx.blobs && e !in tried[..i] :: EvictBefore(tx, now, tried[i], e))
  }

  /** All the candidates of one batch. */
  ghost predicate EvictionList(tx: Tables, now: int, priority: nat, candidates: seq<Digest>) {
    EvictionPrefix(tx, now, priority, candidates) && |candidates| == Min(128, |Evictable(tx, now, priority)|)
  }

  /** Which of the tried blobs went, after how many of them the room test was last repeated, and
      how things stood before the last one went. */
  datatype Eviction = Eviction(evicted: set<Digest>, at: nat, before: Option<Eviction>)

  /** Only tried blobs went, and the last one that did was followed by a room test. */
  ghost predicate TriedOut(tried: seq<Digest>, e: Eviction) {
    && e.evicted <= ToSet(tried) && e.at <= |tried|
    && (e.at > 0 ==> tried[e.at - 1] in e.evicted) && forall i | e.at <= i < |tried| :: tried[i] !in e.evicted
  }

  ghost predicate OneMore(tried: seq<Digest>, e: Eviction)
    requires e.before.Some? && 0 < e.at <= |tried|
  {
    var last := tried[e.at - 1];
    e.before.value.at < e.at && last !in e.before.value.evicted && e.evicted == e.before.value.evicted + {last}
  }

  /** One more candidate tried: skipped, or evicted. */
  lemma TryNext(candidates: seq<Digest>, i: nat, e: Eviction)
    requires Distinct(candidates) && i < |candidates| && TriedOut(candidates[..i], e)
    ensures candidates[i] !in e.evicted && TriedOut(candidates[..i + 1], e)
    ensures TriedOut(candidates[..i + 1], Eviction(e.evicted + {candidates[i]}, i + 1, Some(e)))
  {
    ToSetNext(candidates, i);
    assert candidates[i] !in candidates[..i];
  }

  lemma PrefixOfList(tx: Tables, now: int, priority: nat, candidates: seq<Digest>, n: nat)
    requires EvictionList(tx, now, priority, candidates) && n <= |candidates|
    ensures EvictionPrefix(tx, now, priority, candidates[..n])
    ensures n == |candidates| ==> EvictionList(tx, now, priority, candidates[..n])
  {
    var tried := candidates[..n];
    forall i, e | 0 <= i < n && e in tx.blobs && e !in tried[..i]
      ensures EvictBefore(tx, now, tried[i], e)
    {
      assert tried[..i] == candidates[..i];
    }
  }

  lemma LessLeft<T>(pool: set<T>, gone: set<T>, batch: set<T>)
    requires gone <= pool && batch <= pool - gone
    ensures |pool - (gone + batch)| == |pool - gone| - |batch|
    ensures batch == pool - gone ==> gone + batch == pool
  {
    SubsetCount(batch, pool - gone);
    assert pool - (gone + batch) == pool - gone - batch;
  }

  /** Deleting unreferenced blobs leaves every other blob as referenced as it was. */
  lemma UnreferencedAfter(tx: Tables, gone: set<Digest>)
    requires gone <= UnreferencedBlobs(tx)
    ensures UnreferencedBlobs(Evict(tx, gone)) == UnreferencedBlobs(tx) - gone
  {
    assert Evict(tx, gone).variants == tx.variants;
  }
}
