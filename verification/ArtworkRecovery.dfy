/** What recovery makes of an index and a directory that a crash left in disagreement. */
module ArtworkRecovery {
  import opened Basics
  import opened MapSums
  import opened ArtworkTables

  function ExpiredReservations(t: Tables, now: int): set<ReservationId> {
    set id | id in t.reservations && t.reservations[id].expires <= now
  }

  function ExpiredVariants(t: Tables, now: int): set<Key> {
    set k | k in t.variants && !Live(t.variants[k], now)
  }

  function UnreferencedBlobs(t: Tables): set<Digest> {
    set d | d in t.blobs && !Referenced(t, d)
  }

  /** A path that a live reservation owns: its temporary or its candidate. */
  predicate Active(t: Tables, p: Path) {
    (p.TmpPath? && p.id in t.reservations) || (p.BlobPath? && HasCandidate(t, p.digest))
  }

  predicate RecordedSize(t: Tables, p: Path, size: nat) {
    p.BlobPath? && p.digest in t.blobs && t.blobs[p.digest] == size
  }

  predicate Kept(t: Tables, p: Path, size: nat) {
    Active(t, p) || p.Outside? || RecordedSize(t, p, size)
  }

  /** The directory after the walk; stuck are the files whose removal failed. */
  function Walked(t: Tables, files: Files, stuck: set<Path>): Files {
    map p | p in files && (Kept(t, p, |files[p]|) || p in stuck) :: files[p]
  }

  function UntrackedSizes(t: Tables, files: Files, stuck: set<Path>): map<Path, nat> {
    map p | p in files && !Active(t, p) && (p.Outside? || p in stuck) :: |files[p]|
  }

  function MissingBlobs(t: Tables, files: Files): set<Digest> {
    set d | d in t.blobs && BlobPath(d) !in files
  }

  // The stages of one recovery, each from the result of the one before.

  function Unreserved(t: Tables, now: int): Tables {
    Release(t, ExpiredReservations(t, now))
  }

  function Pruned(t: Tables, now: int): Tables {
    DeleteVariants(Unreserved(t, now), ExpiredVariants(Unreserved(t, now), now))
  }

  function Swept(t: Tables, now: int): Tables {
    Evict(Pruned(t, now), UnreferencedBlobs(Pruned(t, now)))
  }

  function SweptFiles(t: Tables, files: Files, now: int): Files {
    files - ReleasedPaths(t, ExpiredReservations(t, now)) - PathsOf(UnreferencedBlobs(Pruned(t, now)))
  }

  function RecoveredFiles(t: Tables, files: Files, now: int, stuck: set<Path>): Files {
    Walked(Swept(t, now), SweptFiles(t, files, now), stuck)
  }

  ghost function RecoveredTables(t: Tables, files: Files, now: int, stuck: set<Path>): Tables {
    var swept := Swept(t, now);
    Evict(swept, MissingBlobs(swept, RecoveredFiles(t, files, now, stuck)))
      .(untracked := Sum(UntrackedSizes(swept, SweptFiles(t, files, now), stuck)))
  }

  // ---- Safety and the charge ----------------------------------------------------------

  lemma SweptSafe(t: Tables, files: Files, alien: set<Path>, latest: map<Key, Image>, now: int)
    requires Safe(t, files, alien, latest)
    ensures Safe(Swept(t, now), SweptFiles(t, files, now), alien, latest)
    ensures TotalBytes(Swept(t, now)) <= TotalBytes(t) && Swept(t, now).untracked == t.untracked
  {
    var released := files - ReleasedPaths(t, ExpiredReservations(t, now));
    ReleaseSafe(t, files, alien, latest, ExpiredReservations(t, now));
    DeleteVariantsSafe(Unreserved(t, now), released, alien, latest, ExpiredVariants(Unreserved(t, now), now));
    EvictSafe(Pruned(t, now), released, alien, latest, UnreferencedBlobs(Pruned(t, now)));
  }

  lemma UntrackedSafe(t: Tables, files: Files, alien: set<Path>, latest: map<Key, Image>, n: nat)
    requires Safe(t, files, alien, latest)
    ensures Safe(t.(untracked := n), files, alien, latest)
    ensures TotalBytes(t.(untracked := n)) == TotalBytes(t) - t.untracked + n
  {
    assert ReservedOf(t.(untracked := n)) == ReservedOf(t);
    forall d | HasCandidate(t, d) ensures HasCandidate(t.(untracked := n), d) {
      var i :| i in t.reservations && t.reservations[i].candidate == Some(d);
      assert t.(untracked := n).reservations[i].candidate == Some(d);
    }
  }

  lemma ReconcileSafe(t: Tables, files: Files, alien: set<Path>, latest: map<Key, Image>, n: nat)
    requires Safe(t, files, alien, latest)
    ensures
      var t' := Evict(t, MissingBlobs(t, files)).(untracked := n);
      Safe(t', files, alien, latest) && OwnBytes(t') <= OwnBytes(t)
  {
    var missing := MissingBlobs(t, files);
    EvictSafe(t, files, alien, latest, missing);
    assert files - PathsOf(missing) == files;
    UntrackedSafe(Evict(t, missing), files, alien, latest, n);
  }

  /** Recovery keeps safety whatever it could not remove, and only its recount can raise the charge. */
  lemma RecoveredSafe(t: Tables, files: Files, alien: set<Path>, latest: map<Key, Image>, now: int, stuck: set<Path>)
    requires Safe(t, files, alien, latest)
    ensures
      var t', files' := RecoveredTables(t, files, now, stuck), RecoveredFiles(t, files, now, stuck);
      Safe(t', files', alien, latest) && OwnBytes(t') <= OwnBytes(t)
  {
    var swept, left := Swept(t, now), SweptFiles(t, files, now);
    SweptSafe(t, files, alien, latest, now);
    SafeSub(swept, left, Walked(swept, left, stuck), alien, latest);
    ReconcileSafe(swept, Walked(swept, left, stuck), alien, latest, Sum(UntrackedSizes(swept, left, stuck)));
  }

  /** Recovery only drops reservations. */
  lemma RecoveredReservations(t: Tables, files: Files, now: int, stuck: set<Path>)
    ensures
      var t' := RecoveredTables(t, files, now, stuck);
      t'.reservations.Keys <= t.reservations.Keys && forall id | id in t'.reservations :: t'.reservations[id] == t.reservations[id]
  {
  }

  // ---- What a recovery that could remove every file achieves ---------------------------

  ghost predicate Reconciled(t: Tables, files: Files, now: int) {
    && ExpiredReservations(t, now) == {} && ExpiredVariants(t, now) == {} && UnreferencedBlobs(t) == {}
    && (forall p | p in files :: Kept(t, p, |files[p]|))
    && (forall d | d in t.blobs :: BlobPath(d) in files && (|files[BlobPath(d)]| == t.blobs[d] || HasCandidate(t, d)))
  }

  /** No reservation and no reference is expired, every blob is referenced and has a file, which has
      the recorded size unless a reservation is about to replace it; and every file has a reason: it
      lies outside the store's names, belongs to a reservation or is a recorded blob. */
  lemma ReconciledMeans(t: Tables, files: Files, now: int)
    ensures Reconciled(t, files, now) <==>
              && (forall id | id in t.reservations :: t.reservations[id].expires > now)
              && (forall k | k in t.variants :: t.variants[k].expires > now)
              && (forall d | d in t.blobs :: exists k | k in t.variants :: t.variants[k].digest == d)
              && (forall d | d in t.blobs :: BlobPath(d) in files)
              && (forall d | d in t.blobs && |files[BlobPath(d)]| != t.blobs[d] ::
                    exists id | id in t.reservations :: t.reservations[id].candidate == Some(d))
              && (forall p | p in files ::
                    match p
                    case Outside(_) => true
                    case Stray(_) => false
                    case TmpPath(id) => id in t.reservations
                    case BlobPath(d) => (d in t.blobs && t.blobs[d] == |files[p]|)
                                        || exists id | id in t.reservations :: t.reservations[id].candidate == Some(d))
  {
    assert ExpiredReservations(t, now) == {} <==> forall id | id in t.reservations :: id !in ExpiredReservations(t, now);
    assert ExpiredVariants(t, now) == {} <==> forall k | k in t.variants :: k !in ExpiredVariants(t, now);
    assert UnreferencedBlobs(t) == {} <==> forall d | d in t.blobs :: d !in UnreferencedBlobs(t);
  }

  lemma SweptUnexpired(t: Tables, now: int)
    ensures ExpiredReservations(Swept(t, now), now) == {} && ExpiredVariants(Swept(t, now), now) == {}
    ensures UnreferencedBlobs(Swept(t, now)) == {}
  {
    var pruned := Pruned(t, now);
    assert Swept(t, now).variants == pruned.variants;
    forall d | d in Swept(t, now).blobs
      ensures Referenced(Swept(t, now), d)
    {
      assert d in pruned.blobs && d !in UnreferencedBlobs(pruned);
      var k :| k in pruned.variants && pruned.variants[k].digest == d;
      assert Swept(t, now).variants[k].digest == d;
    }
  }

  /** Retiring rows without a file retires their references and no others. */
  lemma EvictMissing(t: Tables, missing: set<Digest>)
    requires UnreferencedBlobs(t) == {}
    ensures UnreferencedBlobs(Evict(t, missing)) == {}
    ensures forall p :: Active(Evict(t, missing), p) == Active(t, p)
  {
    var t' := Evict(t, missing);
    forall d | d in t'.blobs
      ensures Referenced(t', d)
    {
      assert d !in UnreferencedBlobs(t);
      var k :| k in t.variants && t.variants[k].digest == d;
      assert t'.variants[k].digest == d;
    }
  }

  lemma RecoveryReconciles(t: Tables, files: Files, now: int)
    ensures Reconciled(RecoveredTables(t, files, now, {}), RecoveredFiles(t, files, now, {}), now)
  {
    hide Swept, SweptFiles, UntrackedSizes;
    var swept := Swept(t, now);
    var files' := RecoveredFiles(t, files, now, {});
    var t' := RecoveredTables(t, files, now, {});
    var missing := MissingBlobs(swept, files');
    SweptUnexpired(t, now);
    EvictMissing(swept, missing);
    assert t'.reservations == swept.reservations && t'.blobs == swept.blobs - missing;
    forall p ensures Active(t', p) == Active(Evict(swept, missing), p) {
    }
    forall p | p in files'
      ensures Kept(t', p, |files'[p]|)
    {
      assert Kept(swept, p, |files'[p]|);
    }
    assert UnreferencedBlobs(t') == {} by {
      forall d | d in t'.blobs ensures Referenced(t', d) {
        assert d !in UnreferencedBlobs(Evict(swept, missing));
        var k :| k in Evict(swept, missing).variants && Evict(swept, missing).variants[k].digest == d;
        assert t'.variants[k].digest == d;
      }
    }
  }

  /** A reconciled state is a fixed point of recovery. */
  lemma ReconciledStays(t: Tables, files: Files, now: int)
    requires Reconciled(t, files, now)
    ensures RecoveredFiles(t, files, now, {}) == files
    ensures RecoveredTables(t, files, now, {}) == t.(untracked := Sum(UntrackedSizes(t, files, {})))
  {
    assert Unreserved(t, now) == t;
    assert Pruned(t, now) == t;
    assert Swept(t, now) == t;
    assert SweptFiles(t, files, now) == files;
    assert RecoveredFiles(t, files, now, {}) == files;
    assert MissingBlobs(t, files) == {};
    assert Evict(t, {}) == t;
  }

  lemma UntrackedStays(t: Tables, files: Files)
    ensures UntrackedSizes(t, Walked(t, files, {}), {}) == UntrackedSizes(t, files, {})
  {
  }

  lemma SameActive(a: Tables, b: Tables, files: Files)
    requires a.reservations == b.reservations
    ensures UntrackedSizes(a, files, {}) == UntrackedSizes(b, files, {})
  {
    forall p ensures Active(a, p) == Active(b, p) {
    }
  }

  /** Recovering again at the same instant changes nothing. */
  lemma RecoveryIdempotent(t: Tables, files: Files, now: int)
    ensures
      var t', files' := RecoveredTables(t, files, now, {}), RecoveredFiles(t, files, now, {});
      RecoveredTables(t', files', now, {}) == t' && RecoveredFiles(t', files', now, {}) == files'
  {
    var t', files' := RecoveredTables(t, files, now, {}), RecoveredFiles(t, files, now, {});
    RecoveryReconciles(t, files, now);
    ReconciledStays(t', files', now);
    UntrackedStays(Swept(t, now), SweptFiles(t, files, now));
    SameActive(t', Swept(t, now), files');
  }
}
