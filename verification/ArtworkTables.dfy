/** The index and the directory of the shared artwork store, the statements that change
    them, and what has to hold between the two at every instant. */
module ArtworkTables {
  import opened Basics
  import opened MapSums

  const MAX_BODY_BYTES: nat := 8388608
  const VARIANT_OVERHEAD: nat := 1024
  const BLOB_OVERHEAD: nat := 4096
  const RESERVATION_BYTES: nat := MAX_BODY_BYTES + VARIANT_OVERHEAD + BLOB_OVERHEAD
  const RESERVATION_TTL: int := 120
  const VARIANT_TTL: int := 604800
  const ACCESS_REFRESH: int := 60

  const LOW: nat := 0
  const PROTECTED: nat := 3

  /** SHA-256 as an ideal hash: distinct bodies have distinct digests. */
  datatype Digest = Sha256(content: Bytes)

  type Key = string
  type ReservationId = string

  datatype Variant = Variant(digest: Digest, contentType: string, priority: nat, expires: int, accessed: int)

  datatype Reservation = Reservation(bytes: nat, priority: nat, expires: int, candidate: Option<Digest>)

  /** The rows of one store: blob sizes, variant references, reservations, untracked bytes. */
  datatype Tables = Tables(
    blobs: map<Digest, nat>,
    variants: map<Key, Variant>,
    reservations: map<ReservationId, Reservation>,
    untracked: nat)

  /** Every regular file under the base directory; Outside lies outside this namespace. */
  datatype Path = BlobPath(digest: Digest) | TmpPath(id: ReservationId) | Stray(name: string) | Outside(name: string)

  type Files = map<Path, Bytes>

  datatype Image = Image(contentType: string, body: Bytes)

  predicate DigestKey(key: string) {
    |key| == 64 && forall i | 0 <= i < 64 :: '0' <= key[i] <= '9' || 'a' <= key[i] <= 'f'
  }

  /** A key is the lower-case hexadecimal form of a digest. */
  lemma DigestKeyMeans(key: string)
    ensures DigestKey(key) <==> |key| == 64 && forall i | 0 <= i < |key| :: key[i] in "0123456789abcdef"
  {
    assert forall c :: c in "0123456789abcdef" <==> '0' <= c <= '9' || 'a' <= c <= 'f';
  }

  predicate ValidBody(body: Bytes) {
    0 < |body| <= MAX_BODY_BYTES
  }

  // ---- Statements -------------------------------------------------------------------

  /** DELETE FROM artwork_blobs: the foreign key cascades to every variant of a deleted blob. */
  function Evict(t: Tables, ds: set<Digest>): Tables {
    t.(blobs := t.blobs - ds,
       variants := map k | k in t.variants && t.variants[k].digest !in ds :: t.variants[k])
  }

  function Release(t: Tables, ids: set<ReservationId>): Tables {
    t.(reservations := t.reservations - ids)
  }

  function DeleteVariants(t: Tables, keys: set<Key>): Tables {
    t.(variants := t.variants - keys)
  }

  function InsertReservation(t: Tables, id: ReservationId, priority: nat, now: int): Tables {
    t.(reservations := t.reservations[id := Reservation(RESERVATION_BYTES, priority, now + RESERVATION_TTL, None)])
  }

  function SetCandidate(t: Tables, id: ReservationId, d: Digest): Tables
    requires id in t.reservations
  {
    t.(reservations := t.reservations[id := t.reservations[id].(candidate := Some(d))])
  }

  /** The three statements that publish an image and close its reservation. */
  function Publish(t: Tables, id: ReservationId, key: Key, image: Image, priority: nat, now: int): Tables {
    var d := Sha256(image.body);
    var kept := if key in t.variants && t.variants[key].priority > priority then t.variants[key].priority else priority;
    t.(blobs := t.blobs[d := |image.body|],
       variants := t.variants[key := Variant(d, image.contentType, kept, now + VARIANT_TTL, now)],
       reservations := t.reservations - {id})
  }

  // ---- Predicates over rows -----------------------------------------------------------

  predicate Live(v: Variant, now: int) {
    v.expires > now
  }

  predicate Referenced(t: Tables, d: Digest) {
    exists k | k in t.variants :: t.variants[k].digest == d
  }

  predicate HasCandidate(t: Tables, d: Digest) {
    exists id | id in t.reservations :: t.reservations[id].candidate == Some(d)
  }

  predicate Refers(t: Tables, k: Key, d: Digest, now: int) {
    k in t.variants && t.variants[k].digest == d && Live(t.variants[k], now)
  }

  predicate HasLive(t: Tables, d: Digest, priority: nat, now: int) {
    exists k | k in t.variants :: Refers(t, k, d, now) && t.variants[k].priority == priority
  }

  /** COALESCE(max(v.priority), 0) over the live references of a blob. */
  function Tier(t: Tables, d: Digest, now: int): (tier: nat)
    ensures tier <= PROTECTED
  {
    if HasLive(t, d, 3, now) then 3 else if HasLive(t, d, 2, now) then 2 else if HasLive(t, d, 1, now) then 1 else 0
  }

  /** max(last_accessed_at) of a is at most that of b, blobs without live references first. */
  predicate UsedNoLater(t: Tables, now: int, a: Digest, b: Digest) {
    forall k | k in t.variants && Refers(t, k, a, now) ::
      exists j | j in t.variants :: Refers(t, j, b, now) && t.variants[k].accessed <= t.variants[j].accessed
  }

  function SizeOf(t: Tables, d: Digest): nat {
    if d in t.blobs then t.blobs[d] else 0
  }

  /** ORDER BY priority ASC, max(last_accessed_at) ASC NULLS FIRST, byte_size DESC. */
  predicate EvictBefore(t: Tables, now: int, a: Digest, b: Digest) {
    || Tier(t, a, now) < Tier(t, b, now)
    || (&& Tier(t, a, now) == Tier(t, b, now)
        && (|| !UsedNoLater(t, now, b, a)
            || (UsedNoLater(t, now, a, b) && SizeOf(t, a) >= SizeOf(t, b))))
  }

  lemma UsedOrder(t: Tables, now: int)
    ensures TotalPreorder((a, b) => UsedNoLater(t, now, a, b))
  {
    forall a, b, c | UsedNoLater(t, now, a, b) && UsedNoLater(t, now, b, c)
      ensures UsedNoLater(t, now, a, c)
    {
      forall k | k in t.variants && Refers(t, k, a, now)
        ensures exists j | j in t.variants :: Refers(t, j, c, now) && t.variants[k].accessed <= t.variants[j].accessed
      {
        var i :| i in t.variants && Refers(t, i, b, now) && t.variants[k].accessed <= t.variants[i].accessed;
        var j :| j in t.variants && Refers(t, j, c, now) && t.variants[i].accessed <= t.variants[j].accessed;
      }
    }
  }

  lemma EvictionOrder(t: Tables, now: int)
    ensures TotalPreorder((a, b) => EvictBefore(t, now, a, b))
  {
    var used := (a, b) => UsedNoLater(t, now, a, b);
    UsedOrder(t, now);
    forall a, b ensures UsedNoLater(t, now, a, b) || UsedNoLater(t, now, b, a) {
      assert used(a, b) || used(b, a);
    }
    forall a, b, c | EvictBefore(t, now, a, b) && EvictBefore(t, now, b, c)
      ensures EvictBefore(t, now, a, c)
    {
      assert used(a, b) && used(b, c) ==> used(a, c);
      assert used(c, a) && used(a, b) ==> used(c, b);
      assert used(b, c) && used(c, a) ==> used(b, a);
    }
  }

  /** The tier of a blob is the highest priority among its unexpired references, or Low. */
  lemma TierIsHighest(t: Tables, d: Digest, now: int)
    requires forall k | k in t.variants :: t.variants[k].priority <= 3
    ensures forall k | k in t.variants && t.variants[k].digest == d && t.variants[k].expires > now :: t.variants[k].priority <= Tier(t, d, now)
    ensures Tier(t, d, now) > 0 ==>
              exists k | k in t.variants :: t.variants[k].digest == d && t.variants[k].expires > now && t.variants[k].priority == Tier(t, d, now)
  {
    forall k | k in t.variants && t.variants[k].digest == d && t.variants[k].expires > now
      ensures t.variants[k].priority <= Tier(t, d, now)
    {
      assert Refers(t, k, d, now);
      assert HasLive(t, d, t.variants[k].priority, now);
    }
    if Tier(t, d, now) > 0 {
      assert HasLive(t, d, Tier(t, d, now), now);
      var k :| k in t.variants && Refers(t, k, d, now) && t.variants[k].priority == Tier(t, d, now);
    }
  }

  /** When a blob was last used through an unexpired reference; None if it has none. */
  ghost predicate LastUse(t: Tables, d: Digest, now: int, use: Option<int>) {
    && (forall k | k in t.variants && t.variants[k].digest == d && t.variants[k].expires > now ::
          use.Some? && t.variants[k].accessed <= use.value)
    && (use.Some? ==>
          exists k | k in t.variants :: t.variants[k].digest == d && t.variants[k].expires > now && t.variants[k].accessed == use.value)
  }

  ghost predicate Earlier(a: Option<int>, b: Option<int>) {
    b.Some? && (a.None? || a.value < b.value)
  }

  lemma {:induction false} LatestOf(t: Tables, keys: set<Key>) returns (k: Key)
    requires keys != {} && keys <= t.variants.Keys
    ensures k in keys && forall j | j in keys :: t.variants[j].accessed <= t.variants[k].accessed
    decreases |keys|
  {
    k :| k in keys;
    if keys != {k} {
      var other := LatestOf(t, keys - {k});
      if t.variants[other].accessed > t.variants[k].accessed {
        k := other;
      }
    }
  }

  lemma HasLastUse(t: Tables, d: Digest, now: int) returns (use: Option<int>)
    ensures LastUse(t, d, now, use)
  {
    var keys := set k | k in t.variants && t.variants[k].digest == d && t.variants[k].expires > now;
    assert forall k | k in t.variants && t.variants[k].digest == d && t.variants[k].expires > now :: k in keys;
    if keys == {} {
      use := None;
    } else {
      var k := LatestOf(t, keys);
      use := Some(t.variants[k].accessed);
    }
  }

  /** The reference through which a blob was last used. */
  lemma LastUser(t: Tables, d: Digest, now: int, use: int) returns (k: Key)
    requires LastUse(t, d, now, Some(use))
    ensures k in t.variants && Refers(t, k, d, now) && t.variants[k].accessed == use
  {
    k :| k in t.variants && t.variants[k].digest == d && t.variants[k].expires > now && t.variants[k].accessed == use;
  }

  lemma LastUseBounds(t: Tables, d: Digest, now: int, use: Option<int>, k: Key)
    requires LastUse(t, d, now, use) && k in t.variants && Refers(t, k, d, now)
    ensures use.Some? && t.variants[k].accessed <= use.value
  {
  }

  lemma UsedNoLaterMeans(t: Tables, now: int, a: Digest, b: Digest, useA: Option<int>, useB: Option<int>)
    requires LastUse(t, a, now, useA) && LastUse(t, b, now, useB)
    ensures UsedNoLater(t, now, a, b) <==> !Earlier(useB, useA)
  {
    hide LastUse, Refers;
    if UsedNoLater(t, now, a, b) && useA.Some? {
      var k := LastUser(t, a, now, useA.value);
      var j :| j in t.variants && Refers(t, j, b, now) && t.variants[k].accessed <= t.variants[j].accessed;
      LastUseBounds(t, b, now, useB, j);
    }
    if !Earlier(useB, useA) {
      forall k | k in t.variants && Refers(t, k, a, now)
        ensures exists j | j in t.variants :: Refers(t, j, b, now) && t.variants[k].accessed <= t.variants[j].accessed
      {
        LastUseBounds(t, a, now, useA, k);
        var j := LastUser(t, b, now, useB.value);
      }
    }
  }

  /** One blob may go before another exactly if its tier is lower, or the same and it was last used
      earlier, or at the same time and it is no smaller. */
  lemma EvictionOrderMeans(t: Tables, now: int, a: Digest, b: Digest, useA: Option<int>, useB: Option<int>)
    requires LastUse(t, a, now, useA) && LastUse(t, b, now, useB)
    ensures EvictBefore(t, now, a, b) <==>
              || Tier(t, a, now) < Tier(t, b, now)
              || (&& Tier(t, a, now) == Tier(t, b, now)
                  && (Earlier(useA, useB) || (useA == useB && SizeOf(t, a) >= SizeOf(t, b))))
  {
    hide Tier, LastUse, UsedNoLater;
    UsedNoLaterMeans(t, now, a, b, useA, useB);
    UsedNoLaterMeans(t, now, b, a, useB, useA);
  }

  // ---- Accounting ---------------------------------------------------------------------

  ghost function ReservedOf(t: Tables): map<ReservationId, nat> {
    map id | id in t.reservations :: t.reservations[id].bytes
  }

  ghost function Payload(t: Tables): nat {
    Sum(t.blobs)
  }

  ghost function Reserved(t: Tables): nat {
    Sum(ReservedOf(t))
  }

  ghost function Metadata(t: Tables): nat {
    |t.blobs| * BLOB_OVERHEAD + |t.variants| * VARIANT_OVERHEAD
  }

  /** What the rows of the store are charged: everything but the files it does not know. */
  ghost function OwnBytes(t: Tables): nat {
    Payload(t) + Metadata(t) + Reserved(t)
  }

  /** Everything charged against MaxBytes. */
  ghost function TotalBytes(t: Tables): nat {
    OwnBytes(t) + t.untracked
  }

  function ProtectedBlobs(t: Tables, now: int): map<Digest, nat> {
    map d | d in t.blobs && HasLive(t, d, PROTECTED, now) :: t.blobs[d] + BLOB_OVERHEAD
  }

  function ProtectedReservations(t: Tables): map<ReservationId, nat> {
    map id | id in t.reservations && t.reservations[id].priority == PROTECTED :: t.reservations[id].bytes
  }

  function ProtectedVariants(t: Tables, now: int): set<Key> {
    set k | k in t.variants && Live(t.variants[k], now) && t.variants[k].priority == PROTECTED
  }

  ghost function ProtectedBytes(t: Tables, now: int): nat {
    Sum(ProtectedBlobs(t, now)) + Sum(ProtectedReservations(t)) + |ProtectedVariants(t, now)| * VARIANT_OVERHEAD
  }

  /** What counts against the protected quota: blobs with an unexpired protected reference, protected
      reservations, and unexpired protected references. */
  lemma ProtectedMeans(t: Tables, now: int)
    ensures forall d :: d in ProtectedBlobs(t, now) <==>
              d in t.blobs && exists k | k in t.variants :: t.variants[k].digest == d && t.variants[k].priority == 3 && t.variants[k].expires > now
    ensures forall d | d in ProtectedBlobs(t, now) :: ProtectedBlobs(t, now)[d] == t.blobs[d] + 4096
    ensures forall id :: id in ProtectedReservations(t) <==> id in t.reservations && t.reservations[id].priority == 3
    ensures forall id | id in ProtectedReservations(t) :: ProtectedReservations(t)[id] == t.reservations[id].bytes
    ensures forall k :: k in ProtectedVariants(t, now) <==> k in t.variants && t.variants[k].priority == 3 && t.variants[k].expires > now
    ensures ProtectedBytes(t, now) == Sum(ProtectedBlobs(t, now)) + Sum(ProtectedReservations(t)) + 1024 * |ProtectedVariants(t, now)|
  {
    forall d, k | k in t.variants && t.variants[k].digest == d && t.variants[k].priority == 3 && t.variants[k].expires > now
      ensures HasLive(t, d, PROTECTED, now)
    {
      assert Refers(t, k, d, now);
    }
  }

  /** The sizes of the files at blob paths, except alien ones. */
  ghost function BlobFileSizes(files: Files, alien: set<Path>): map<Path, nat> {
    map p | p in files && p.BlobPath? && p !in alien :: |files[p]|
  }

  // ---- What holds between index and directory -----------------------------------------

  /** Row-level constraints: sizes match digests, variants reference recorded blobs. */
  ghost predicate WellFormed(t: Tables) {
    && (forall d | d in t.blobs :: ValidBody(d.content) && t.blobs[d] == |d.content|)
    && (forall k | k in t.variants :: t.variants[k].digest in t.blobs && t.variants[k].priority <= PROTECTED)
    && (forall id | id in t.reservations ::
          && t.reservations[id].bytes == RESERVATION_BYTES
          && (t.reservations[id].candidate.Some? ==> ValidBody(t.reservations[id].candidate.value.content)))
  }

  /** Every file at a blob path has a blob row or is the candidate of a reservation, unless it is
      alien: put there or enlarged by something other than the store. */
  ghost predicate Owned(t: Tables, files: Files, alien: set<Path>) {
    forall p | p in files && p.BlobPath? && p !in alien :: p.digest in t.blobs || HasCandidate(t, p.digest)
  }

  /** Files that are not alien may be damaged or truncated, but are no longer than what was hashed. */
  ghost predicate Bounded(files: Files, alien: set<Path>) {
    forall p | p in files && p.BlobPath? && p !in alien :: |files[p]| <= |p.digest.content|
  }

  /** Every variant row records exactly the last image committed for its key. */
  ghost predicate Records(t: Tables, latest: map<Key, Image>) {
    forall k | k in t.variants ::
      && k in latest
      && latest[k].contentType == t.variants[k].contentType
      && Sha256(latest[k].body) == t.variants[k].digest
  }

  ghost predicate Safe(t: Tables, files: Files, alien: set<Path>, latest: map<Key, Image>) {
    WellFormed(t) && Records(t, latest) && Owned(t, files, alien) && Bounded(files, alien)
  }

  ghost predicate SubRows(a: Tables, b: Tables) {
    && a.blobs.Keys <= b.blobs.Keys && (forall d | d in a.blobs :: a.blobs[d] == b.blobs[d])
    && a.variants.Keys <= b.variants.Keys && (forall k | k in a.variants :: a.variants[k] == b.variants[k])
    && a.reservations.Keys <= b.reservations.Keys
    && (forall id | id in a.reservations :: a.reservations[id] == b.reservations[id])
    && a.untracked <= b.untracked
  }

  /** Removing files never breaks safety. */
  lemma SafeShrink(t: Tables, files: Files, removed: set<Path>, alien: set<Path>, latest: map<Key, Image>)
    requires Safe(t, files, alien, latest)
    ensures Safe(t, files - removed, alien, latest)
  {
  }

  ghost predicate SubFiles(a: Files, b: Files) {
    a.Keys <= b.Keys && forall p | p in a :: a[p] == b[p]
  }

  lemma SafeSub(t: Tables, files: Files, less: Files, alien: set<Path>, latest: map<Key, Image>)
    requires Safe(t, files, alien, latest) && SubFiles(less, files)
    ensures Safe(t, less, alien, latest)
  {
  }

  /** Safety is about the files at blob paths only. */
  lemma SafeElsewhere(t: Tables, files: Files, other: Files, alien: set<Path>, latest: map<Key, Image>)
    requires Safe(t, files, alien, latest) && forall p | p in other && p.BlobPath? :: p in files && other[p] == files[p]
    ensures Safe(t, other, alien, latest)
  {
  }

  /** A file that is gone, or that is a candidate with the hashed content, is not alien. */
  lemma NotAlien(t: Tables, files: Files, alien: set<Path>, latest: map<Key, Image>, d: Digest)
    requires Safe(t, files, alien, latest)
    requires BlobPath(d) in files ==> files[BlobPath(d)] == d.content && HasCandidate(t, d)
    ensures Safe(t, files, alien - {BlobPath(d)}, latest)
  {
  }

  /** Moving a candidate's body to its blob path. */
  lemma MoveSafe(t: Tables, files: Files, alien: set<Path>, latest: map<Key, Image>, d: Digest, tmp: Path)
    requires Safe(t, files, alien, latest) && HasCandidate(t, d)
    ensures Safe(t, files[BlobPath(d) := d.content] - {tmp}, alien, latest)
  {
  }

  /** A live file with the hashed content of a reference is the image last committed. */
  lemma HitIsLatest(t: Tables, files: Files, alien: set<Path>, latest: map<Key, Image>, key: Key)
    requires Safe(t, files, alien, latest) && key in t.variants
    ensures t.variants[key].digest in t.blobs && t.blobs[t.variants[key].digest] == |t.variants[key].digest.content|
    ensures key in latest && latest[key] == Image(t.variants[key].contentType, t.variants[key].digest.content)
  {
  }

  lemma RemoveTwice(files: Files, a: set<Path>, b: set<Path>)
    ensures files - a - b == files - (a + b)
  {
  }

  /** Removing rows never raises the charge. */
  lemma TotalShrink(less: Tables, t: Tables)
    requires SubRows(less, t)
    ensures TotalBytes(less) <= TotalBytes(t)
  {
    SumMonotone(less.blobs, t.blobs);
    SumMonotone(ReservedOf(less), ReservedOf(t));
    SubsetCount(less.blobs.Keys, t.blobs.Keys);
    SubsetCount(less.variants.Keys, t.variants.Keys);
    assert |less.blobs| == |less.blobs.Keys| && |t.blobs| == |t.blobs.Keys|;
    assert |less.variants| == |less.variants.Keys| && |t.variants| == |t.variants.Keys|;
  }

  /** Each file is charged to its own row: orphans with distinct digests have distinct reservations. */
  lemma {:induction false} FilesCharged(sizes: map<Path, nat>, blobs: map<Digest, nat>, reservations: map<ReservationId, Reservation>)
    requires forall p | p in sizes ::
               && p.BlobPath?
               && (|| (p.digest in blobs && sizes[p] <= blobs[p.digest])
                   || (exists id | id in reservations ::
                         reservations[id].candidate == Some(p.digest) && sizes[p] <= reservations[id].bytes))
    ensures Sum(sizes) <= Sum(blobs) + Sum(map id | id in reservations :: reservations[id].bytes)
    decreases |sizes|
  {
    if sizes != map[] {
      var p := Pick(sizes);
      assert |sizes - {p}| < |sizes|;
      var bytes := map id | id in reservations :: reservations[id].bytes;
      if p.digest in blobs && sizes[p] <= blobs[p.digest] {
        FilesCharged(sizes - {p}, blobs - {p.digest}, reservations);
        SumRemove(blobs, p.digest);
      } else {
        var id :| id in reservations && reservations[id].candidate == Some(p.digest) && sizes[p] <= reservations[id].bytes;
        var others := reservations - {id};
        forall q | q in sizes - {p} && !(q.digest in blobs && sizes[q] <= blobs[q.digest])
          ensures exists i | i in others :: others[i].candidate == Some(q.digest) && sizes[q] <= others[i].bytes
        {
          var i :| i in reservations && reservations[i].candidate == Some(q.digest) && sizes[q] <= reservations[i].bytes;
          assert q != p && i in others;
        }
        FilesCharged(sizes - {p}, blobs, others);
        SumRemove(bytes, id);
        assert bytes - {id} == map i | i in others :: others[i].bytes;
      }
    }
  }

  /** The bytes of all blob files that are not alien never exceed the recorded payload plus
      reservations. */
  lemma DiskWithinCharge(t: Tables, files: Files, alien: set<Path>, latest: map<Key, Image>)
    requires Safe(t, files, alien, latest)
    ensures Sum(BlobFileSizes(files, alien)) <= Payload(t) + Reserved(t) <= OwnBytes(t) <= TotalBytes(t)
  {
    forall p | p in BlobFileSizes(files, alien) && p.digest !in t.blobs
      ensures exists id | id in t.reservations ::
                t.reservations[id].candidate == Some(p.digest) && |files[p]| <= t.reservations[id].bytes
    {
      var id :| id in t.reservations && t.reservations[id].candidate == Some(p.digest);
    }
    FilesCharged(BlobFileSizes(files, alien), t.blobs, t.reservations);
  }

  // ---- What each statement does to safety and to the charge ---------------------------

  lemma ReserveCharges(t: Tables, id: ReservationId, priority: nat, now: int)
    requires id !in t.reservations
    ensures TotalBytes(InsertReservation(t, id, priority, now)) == TotalBytes(t) + RESERVATION_BYTES
    ensures Reserved(InsertReservation(t, id, priority, now)) == Reserved(t) + RESERVATION_BYTES
  {
    hide Sum;
    SumInsert(ReservedOf(t), id, RESERVATION_BYTES);
    assert ReservedOf(InsertReservation(t, id, priority, now)) == ReservedOf(t)[id := RESERVATION_BYTES];
  }

  lemma ReserveChargesProtected(t: Tables, id: ReservationId, now: int)
    requires id !in t.reservations
    ensures ProtectedBytes(InsertReservation(t, id, PROTECTED, now), now) == ProtectedBytes(t, now) + RESERVATION_BYTES
  {
    var t' := InsertReservation(t, id, PROTECTED, now);
    assert ProtectedBlobs(t', now) == ProtectedBlobs(t, now) by {
      forall d ensures HasLive(t', d, PROTECTED, now) == HasLive(t, d, PROTECTED, now) {
        assert forall k :: Refers(t', k, d, now) == Refers(t, k, d, now);
      }
    }
    assert ProtectedVariants(t', now) == ProtectedVariants(t, now);
    SumInsert(ProtectedReservations(t), id, RESERVATION_BYTES);
    assert ProtectedReservations(t') == ProtectedReservations(t)[id := RESERVATION_BYTES];
  }

  lemma InsertSafe(t: Tables, files: Files, alien: set<Path>, latest: map<Key, Image>, id: ReservationId, priority: nat, now: int)
    requires Safe(t, files, alien, latest) && id !in t.reservations
    ensures Safe(InsertReservation(t, id, priority, now), files, alien, latest)
  {
    forall d | HasCandidate(t, d) ensures HasCandidate(InsertReservation(t, id, priority, now), d) {
      var i :| i in t.reservations && t.reservations[i].candidate == Some(d);
      assert InsertReservation(t, id, priority, now).reservations[i].candidate == Some(d);
    }
  }

  /** A new reservation is charged in full, and against the protected quota if it is protected. */
  lemma InsertEffect(t: Tables, files: Files, alien: set<Path>, latest: map<Key, Image>, id: ReservationId, priority: nat, now: int)
    requires Safe(t, files, alien, latest) && id !in t.reservations
    ensures Safe(InsertReservation(t, id, priority, now), files, alien, latest)
    ensures TotalBytes(InsertReservation(t, id, priority, now)) == TotalBytes(t) + RESERVATION_BYTES
    ensures Reserved(InsertReservation(t, id, priority, now)) == Reserved(t) + RESERVATION_BYTES
    ensures priority == PROTECTED ==>
              ProtectedBytes(InsertReservation(t, id, priority, now), now) == ProtectedBytes(t, now) + RESERVATION_BYTES
  {
    InsertSafe(t, files, alien, latest, id, priority, now);
    ReserveCharges(t, id, priority, now);
    if priority == PROTECTED {
      ReserveChargesProtected(t, id, now);
    }
  }

  lemma StageKeepsCharge(t: Tables, id: ReservationId, d: Digest)
    requires id in t.reservations
    ensures TotalBytes(SetCandidate(t, id, d)) == TotalBytes(t)
  {
    assert ReservedOf(SetCandidate(t, id, d)) == ReservedOf(t);
  }

  /** Recording a new candidate abandons the previous one, which therefore must not be on disk. */
  lemma StageSafe(t: Tables, files: Files, alien: set<Path>, latest: map<Key, Image>, id: ReservationId, body: Bytes)
    requires Safe(t, files, alien, latest) && id in t.reservations && ValidBody(body)
    requires t.reservations[id].candidate == None || t.reservations[id].candidate == Some(Sha256(body))
    ensures Safe(SetCandidate(t, id, Sha256(body)), files, alien, latest)
  {
    var t' := SetCandidate(t, id, Sha256(body));
    forall p | p in files && p.BlobPath? && p !in alien && p.digest !in t.blobs
      ensures HasCandidate(t', p.digest)
    {
      var i :| i in t.reservations && t.reservations[i].candidate == Some(p.digest);
      assert t'.reservations[i].candidate == Some(p.digest);
    }
  }

  /** A published image is charged to the reservation it closes. */
  lemma PublishCharges(t: Tables, id: ReservationId, key: Key, image: Image, priority: nat, now: int)
    requires WellFormed(t) && id in t.reservations && ValidBody(image.body)
    ensures TotalBytes(Publish(t, id, key, image, priority, now)) <= TotalBytes(t)
  {
    var t', d := Publish(t, id, key, image, priority, now), Sha256(image.body);
    SumRemove(ReservedOf(t), id);
    assert ReservedOf(t') == ReservedOf(t) - {id};
    if d in t.blobs {
      assert t'.blobs == t.blobs;
    } else {
      SumInsert(t.blobs, d, |image.body|);
    }
  }

  lemma PublishSafe(t: Tables, files: Files, alien: set<Path>, latest: map<Key, Image>, id: ReservationId, key: Key, image: Image,
                    priority: nat, now: int)
    requires Safe(t, files, alien, latest) && id in t.reservations && ValidBody(image.body) && priority <= PROTECTED
    requires t.reservations[id].candidate == Some(Sha256(image.body))
    ensures Safe(Publish(t, id, key, image, priority, now), files, alien, latest[key := image])
  {
    var t' := Publish(t, id, key, image, priority, now);
    forall p | p in files && p.BlobPath? && p !in alien && p.digest !in t'.blobs
      ensures HasCandidate(t', p.digest)
    {
      var i :| i in t.reservations && t.reservations[i].candidate == Some(p.digest);
      assert i != id;
      assert t'.reservations[i].candidate == Some(p.digest);
    }
  }

  /** UPDATE ... SET last_accessed_at=now(). */
  function Touch(t: Tables, key: Key, now: int): Tables
    requires key in t.variants
  {
    t.(variants := t.variants[key := t.variants[key].(accessed := now)])
  }

  lemma TouchSafe(t: Tables, files: Files, alien: set<Path>, latest: map<Key, Image>, key: Key, now: int)
    requires Safe(t, files, alien, latest) && key in t.variants
    ensures Safe(Touch(t, key, now), files, alien, latest) && TotalBytes(Touch(t, key, now)) == TotalBytes(t)
  {
    assert Touch(t, key, now).variants.Keys == t.variants.Keys;
    assert |Touch(t, key, now).variants| == |t.variants.Keys| == |t.variants|;
    assert ReservedOf(Touch(t, key, now)) == ReservedOf(t);
    forall d | HasCandidate(t, d) ensures HasCandidate(Touch(t, key, now), d) {
      var i :| i in t.reservations && t.reservations[i].candidate == Some(d);
      assert Touch(t, key, now).reservations[i].candidate == Some(d);
    }
  }

  /** The files that deleting blobs removes. */
  function PathsOf(ds: set<Digest>): set<Path> {
    set d | d in ds :: BlobPath(d)
  }

  /** The files a release removes: the temporary, and the candidate unless a blob row owns it. */
  function ReleasedPaths(t: Tables, ids: set<ReservationId>): set<Path> {
    (set id | id in ids :: TmpPath(id)) +
    (set id | id in ids && id in t.reservations && t.reservations[id].candidate.Some?
              && t.reservations[id].candidate.value !in t.blobs :: BlobPath(t.reservations[id].candidate.value))
  }

  lemma EvictMore(t: Tables, gone: set<Digest>, more: set<Digest>)
    ensures Evict(Evict(t, gone), more) == Evict(t, gone + more)
    ensures PathsOf(gone) + PathsOf(more) == PathsOf(gone + more)
  {
    assert t.blobs - gone - more == t.blobs - (gone + more);
    assert Evict(Evict(t, gone), more).variants == Evict(t, gone + more).variants;
  }

  lemma EvictNone(t: Tables, files: Files)
    ensures Evict(t, {}) == t && PathsOf({}) == {} && files - {} == files
  {
    assert Evict(t, {}).variants == t.variants;
  }

  lemma ReleaseNone(t: Tables, files: Files)
    ensures Release(t, {}) == t && ReleasedPaths(t, {}) == {} && files - {} == files
  {
  }

  /** Releasing one more reservation removes exactly its own files as well. */
  lemma ReleaseOneMore(t: Tables, done: set<ReservationId>, id: ReservationId)
    requires id !in done
    ensures Release(Release(t, done), {id}) == Release(t, done + {id})
    ensures ReleasedPaths(t, done) + ReleasedPaths(Release(t, done), {id}) == ReleasedPaths(t, done + {id})
  {
    assert ReleasedPaths(Release(t, done), {id}) == ReleasedPaths(t, {id});
    assert t.reservations - done - {id} == t.reservations - (done + {id});
  }

  lemma EvictSafe(t: Tables, files: Files, alien: set<Path>, latest: map<Key, Image>, ds: set<Digest>)
    requires Safe(t, files, alien, latest)
    ensures Safe(Evict(t, ds), files - PathsOf(ds), alien, latest)
    ensures TotalBytes(Evict(t, ds)) <= TotalBytes(t)
  {
    TotalShrink(Evict(t, ds), t);
    forall p | p in files - PathsOf(ds) && p.BlobPath? && p !in alien
      ensures p.digest in Evict(t, ds).blobs || HasCandidate(Evict(t, ds), p.digest)
    {
      assert p.digest !in ds;
      if p.digest !in t.blobs {
        var i :| i in t.reservations && t.reservations[i].candidate == Some(p.digest);
        assert Evict(t, ds).reservations[i].candidate == Some(p.digest);
      }
    }
  }

  lemma ReleaseSafe(t: Tables, files: Files, alien: set<Path>, latest: map<Key, Image>, ids: set<ReservationId>)
    requires Safe(t, files, alien, latest)
    ensures Safe(Release(t, ids), files - ReleasedPaths(t, ids), alien, latest)
    ensures TotalBytes(Release(t, ids)) <= TotalBytes(t)
  {
    TotalShrink(Release(t, ids), t);
    var left := files - ReleasedPaths(t, ids);
    forall p | p in left && p.BlobPath? && p !in alien && p.digest !in t.blobs
      ensures HasCandidate(Release(t, ids), p.digest)
    {
      var i :| i in t.reservations && t.reservations[i].candidate == Some(p.digest);
      assert i !in ids;
      assert Release(t, ids).reservations[i].candidate == Some(p.digest);
    }
  }

  lemma DeleteVariantsSafe(t: Tables, files: Files, alien: set<Path>, latest: map<Key, Image>, keys: set<Key>)
    requires Safe(t, files, alien, latest)
    ensures Safe(DeleteVariants(t, keys), files, alien, latest)
    ensures TotalBytes(DeleteVariants(t, keys)) <= TotalBytes(t)
  {
    TotalShrink(DeleteVariants(t, keys), t);
    forall d | HasCandidate(t, d) ensures HasCandidate(DeleteVariants(t, keys), d) {
      var i :| i in t.reservations && t.reservations[i].candidate == Some(d);
      assert DeleteVariants(t, keys).reservations[i].candidate == Some(d);
    }
  }

  /** The blob a publication leaves without references, if any. */
  function Superseded(t: Tables, published: Tables, key: Key, d: Digest): set<Digest> {
    if key in t.variants && t.variants[key].digest != d && !Referenced(published, t.variants[key].digest)
    then {t.variants[key].digest} else {}
  }

  /** The rows after publication and removal of the blob it superseded. */
  function Committed(t: Tables, id: ReservationId, key: Key, image: Image, priority: nat, now: int): Tables {
    var published := Publish(t, id, key, image, priority, now);
    Evict(published, Superseded(t, published, key, Sha256(image.body)))
  }

  /** Publication as a whole is safe for the new image and never raises the charge. */
  lemma PublishEffect(t: Tables, files: Files, alien: set<Path>, latest: map<Key, Image>, id: ReservationId, key: Key, image: Image,
                      priority: nat, now: int, published: Tables, gone: set<Digest>)
    requires Safe(t, files, alien, latest) && id in t.reservations && ValidBody(image.body) && priority <= PROTECTED
    requires t.reservations[id].candidate == Some(Sha256(image.body))
    requires published == Publish(t, id, key, image, priority, now)
    ensures Safe(Evict(published, gone), files - PathsOf(gone), alien, latest[key := image])
    ensures TotalBytes(Evict(published, gone)) <= TotalBytes(t)
  {
    PublishSafe(t, files, alien, latest, id, key, image, priority, now);
    PublishCharges(t, id, key, image, priority, now);
    EvictSafe(published, files, alien, latest[key := image], gone);
  }

  /** What a publication does, row by row. The reference lives for seven days from now and keeps the
      higher of the two priorities; of the blobs only the one it pointed to before may go, and it
      goes exactly if nothing points to it any more. */
  ghost predicate PublishedRows(t: Tables, u: Tables, id: ReservationId, key: Key, image: Image, priority: nat, now: int) {
    var d := Sha256(image.body);
    && key in u.variants && u.variants[key].digest == d && u.variants[key].contentType == image.contentType
    && u.variants[key].accessed == now && u.variants[key].expires == now + 604800
    && (forall at :: Live(u.variants[key], at) <==> at < now + 604800)
    && u.variants[key].priority >= priority && (key in t.variants ==> u.variants[key].priority >= t.variants[key].priority)
    && (u.variants[key].priority == priority || (key in t.variants && u.variants[key].priority == t.variants[key].priority))
    && (forall k | k != key :: (k in u.variants <==> k in t.variants) && (k in u.variants ==> u.variants[k] == t.variants[k]))
    && d in u.blobs && u.blobs[d] == |image.body|
    && (forall e | e in u.blobs && e != d :: e in t.blobs && u.blobs[e] == t.blobs[e])
    && (forall e | e in t.blobs && e != d ::
          e !in u.blobs <==> key in t.variants && t.variants[key].digest == e && forall k | k in u.variants :: u.variants[k].digest != e)
    && (forall i :: (i in u.reservations <==> i in t.reservations && i != id) && (i in u.reservations ==> u.reservations[i] == t.reservations[i]))
    && u.untracked == t.untracked
  }

  lemma PublishMeans(t: Tables, id: ReservationId, key: Key, image: Image, priority: nat, now: int)
    ensures PublishedRows(t, Committed(t, id, key, image, priority, now), id, key, image, priority, now)
  {
    var published := Publish(t, id, key, image, priority, now);
    var gone := Superseded(t, published, key, Sha256(image.body));
    assert Evict(published, gone).variants == published.variants;
  }

  /** Dropping the superseded blob touches neither the new reference nor its file. */
  lemma PublishStays(t: Tables, id: ReservationId, key: Key, image: Image, priority: nat, now: int)
    ensures
      var published := Publish(t, id, key, image, priority, now);
      var gone := Superseded(t, published, key, Sha256(image.body));
      && key in Evict(published, gone).variants && Evict(published, gone).variants[key] == published.variants[key]
      && BlobPath(Sha256(image.body)) !in PathsOf(gone)
  {
  }
}
