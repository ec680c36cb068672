/** Runs of the artwork store: any sequence of locked sections of any number of callers, cut
    short anywhere, with restarts and damage to the directory in between. */
module ArtworkRuns {
  import opened Basics
  import opened MapSums
  import opened ArtworkTables
  import opened ArtworkRecovery
  import opened ArtworkStore

  datatype Section =
    | DoReserve(key: Key, want: int, id: ReservationId, now: int)
    | DoStage(id: ReservationId, body: Bytes, now: int)
    | DoPublish(id: ReservationId, key: Key, priority: nat, image: Image, now: int)
    | DoCancel(id: ReservationId)
    | DoGet(key: Key, now: int, clock: int)
    | DoSweep(now: int)
    | DoEvictLow(now: int)
    | DoRecover(now: int)
    | DoRestart
    | DoDamage(lost: set<Path>, changed: Files, added: Files)
    | DoRefuse(paths: set<Path>)

  /** Ids are never drawn twice, and each handle begins at most one Commit, with a valid image. */
  ghost predicate Legal(run: seq<Section>, issued: set<ReservationId>, unstaged: set<ReservationId>) {
    run == [] ||
    match run[0]
    case DoReserve(_, _, id, _) => id !in issued && Legal(run[1..], issued + {id}, unstaged + {id})
    case DoStage(id, body, _) => id in unstaged && ValidBody(body) && Legal(run[1..], issued, unstaged - {id})
    case DoPublish(_, _, priority, image, _) => priority <= PROTECTED && ValidBody(image.body) && Legal(run[1..], issued, unstaged)
    case _ => Legal(run[1..], issued, unstaged)
  }

  ghost function IssuedAfter(s: Section, issued: set<ReservationId>): set<ReservationId> {
    if s.DoReserve? then issued + {s.id} else issued
  }

  ghost function UnstagedAfter(s: Section, unstaged: set<ReservationId>): set<ReservationId> {
    if s.DoReserve? then unstaged + {s.id} else if s.DoStage? then unstaged - {s.id} else unstaged
  }

  /** The next section of a legal run is legal by itself, and the rest after it. */
  lemma LegalHead(run: seq<Section>, i: nat, issued: set<ReservationId>, unstaged: set<ReservationId>)
    requires i < |run| && Legal(run[i..], issued, unstaged)
    ensures Legal([run[i]], issued, unstaged) && Legal(run[i + 1..], IssuedAfter(run[i], issued), UnstagedAfter(run[i], unstaged))
  {
    assert run[i..][0] == run[i] && run[i..][1..] == run[i + 1..];
    assert [run[i]][1..] == [];
  }

  predicate Recounts(s: Section) {
    s.DoRecover? || s.DoRestart?
  }

  /** The keys whose image a section can change. */
  predicate Publishes(s: Section, key: Key) {
    s.DoPublish? && s.key == key
  }

  /** The blob paths at which a section puts or enlarges a file behind the store's back. */
  function PlantedBy(s: Section): set<Path> {
    if s.DoDamage? then Planted(s.changed, s.added) else {}
  }

  ghost function PlantedIn(run: seq<Section>): set<Path> {
    if run == [] then {} else PlantedIn(run[..|run| - 1]) + PlantedBy(run[|run| - 1])
  }

  /** Sections that read, maintain or recover change no image and no reservation id. */
  method Maintain(store: SharedStore, s: Section)
    requires store.Valid() && !s.DoReserve? && !s.DoStage? && !s.DoPublish?
    modifies store
    ensures store.Valid() && store.issued == old(store.issued) && store.unstaged == old(store.unstaged) && store.latest == old(store.latest)
    ensures store.alien == old(store.alien) + PlantedBy(s)
    ensures old(store.ready) && !Recounts(s) ==> store.ready && TotalBytes(store.db) <= TotalBytes(old(store.db))
    ensures OwnBytes(store.db) <= OwnBytes(old(store.db))
  {
    hide Safe, OwnBytes, TotalBytes;
    var o, hit, removed, freed;
    ghost var stuck, work;
    match s
    case DoCancel(id) => o := store.Cancel(id);
    case DoGet(key, now, clock) => hit, o := store.GetContext(key, now, clock);
    case DoSweep(now) => work, o := store.Sweep(now);
    case DoEvictLow(now) => removed, freed, o := store.EvictLowPriority(now);
    case DoRecover(now) => stuck, o := store.Recover(now);
    case DoRestart => store.Restart();
    case DoDamage(lost, changed, added) => store.Damage(lost, changed, added);
    case DoRefuse(paths) => store.Refuse(paths);
  }

  method Execute(store: SharedStore, s: Section)
    requires store.Valid() && Legal([s], store.issued, store.unstaged)
    modifies store
    ensures store.Valid()
    ensures store.issued == IssuedAfter(s, old(store.issued)) && store.unstaged == UnstagedAfter(s, old(store.unstaged))
    ensures forall key | !Publishes(s, key) ::
              (key in store.latest <==> key in old(store.latest)) && (key in store.latest ==> store.latest[key] == old(store.latest)[key])
    ensures store.alien <= old(store.alien) + PlantedBy(s)
    ensures old(store.ready) && !Recounts(s) ==>
              store.ready && (TotalBytes(store.db) <= store.opts.maxBytes || TotalBytes(store.db) <= TotalBytes(old(store.db)))
    ensures OwnBytes(store.db) <= store.opts.maxBytes || OwnBytes(store.db) <= OwnBytes(old(store.db))
  {
    hide Safe, OwnBytes, TotalBytes, Planted;
    var o;
    if s.DoReserve? {
      var probe: nat -> nat := *;
      ghost var work;
      work, o := store.Reserve(s.key, s.want, s.id, s.now, probe);
    } else if s.DoStage? {
      o := store.StageCommit(s.id, s.body, s.now);
    } else if s.DoPublish? {
      var free: nat := *;
      o := store.PublishCommit(s.id, s.key, s.priority, s.image, s.now, free);
    } else {
      Maintain(store, s);
    }
  }

  /** Every run, with any number of restarts, recoveries and recounts and any damage, keeps the store
      safe, and its files within what its rows are charged, and that within the budget; only files
      that damage put at blob paths or enlarged there do not count. What recovery counts of files
      it does not own is charged on top; without a recount the whole charge stays within the budget. */
  method Run(store: SharedStore, run: seq<Section>)
    requires store.Valid() && Legal(run, store.issued, store.unstaged)
    modifies store
    ensures store.Valid()
    ensures Sum(BlobFileSizes(store.files, store.alien)) <= OwnBytes(store.db)
    ensures store.alien <= old(store.alien) + PlantedIn(run)
    ensures run == [] ==> store.ready == old(store.ready)
    ensures OwnBytes(old(store.db)) <= store.opts.maxBytes ==> OwnBytes(store.db) <= store.opts.maxBytes
    ensures old(store.ready) && TotalBytes(old(store.db)) <= store.opts.maxBytes && (forall s | s in run :: !Recounts(s)) ==>
              TotalBytes(store.db) <= store.opts.maxBytes
  {
    hide Safe, OwnBytes, TotalBytes, Planted, Sum;
    var i := 0;
    ghost var bounded := store.ready && TotalBytes(store.db) <= store.opts.maxBytes && forall s | s in run :: !Recounts(s);
    while i < |run|
      invariant 0 <= i <= |run| && store.Valid()
      invariant Legal(run[i..], store.issued, store.unstaged)
      invariant store.alien <= old(store.alien) + PlantedIn(run[..i])
      invariant OwnBytes(old(store.db)) <= store.opts.maxBytes ==> OwnBytes(store.db) <= store.opts.maxBytes
      invariant i == 0 ==> store.ready == old(store.ready)
      invariant bounded ==> store.ready && TotalBytes(store.db) <= store.opts.maxBytes
    {
      LegalHead(run, i, store.issued, store.unstaged);
      Execute(store, run[i]);
      assert run[..i + 1][..i] == run[..i];
      i := i + 1;
    }
    assert run[..i] == run;
    DiskWithinCharge(store.db, store.files, store.alien, store.latest);
  }

  /** One caller's handle on a reservation. */
  class ReservationHandle {
    const store: SharedStore
    const id: ReservationId
    const key: Key
    const priority: nat
    var closed: bool

    constructor (store: SharedStore, id: ReservationId, key: Key, priority: nat)
      ensures this.store == store && this.id == id && this.key == key && this.priority == priority && !closed
    {
      this.store, this.id, this.key, this.priority, closed := store, id, key, priority, false;
    }

    /** Stages, publishes and, unless the process died, releases on failure; others run between
        the two transactions. isImage is the verdict of the media type parser. */
    method Commit(contentType: string, isImage: bool, body: Bytes, staged: int, published: int, free: nat, others: seq<Section>)
      returns (o: Outcome)
      requires store.Valid() && priority <= PROTECTED
      requires !closed ==> id in store.unstaged && Legal(others, store.issued, store.unstaged - {id})
      modifies this, store
      ensures store.Valid()
      ensures old(closed) ==> o == Failed(BadReservation) && store.db == old(store.db) && store.files == old(store.files)
      ensures o.Done? ==> !old(closed) && closed && store.Published(key, Image(contentType, body))
      ensures o.Done? ==> forall at :: Live(store.db.variants[key], at) <==> at < published + 604800
      ensures others == [] ==> store.ready == old(store.ready)
      ensures o == Failed(BadImage) <==> !old(closed) && !(isImage && |contentType| <= 255 && 0 < |body| <= 8388608)
      ensures !o.Aborted? ==> closed
    {
      hide Safe, OwnBytes, TotalBytes, BlobFileSizes, PlantedIn, Sum;
      if closed {
        return Failed(BadReservation);
      }
      o := Failed(BadImage);
      if isImage && |contentType| <= 255 && ValidBody(body) {
        o := store.StageCommit(id, body, staged);
        if o.Done? {
          Run(store, others);
          o := store.PublishCommit(id, key, priority, Image(contentType, body), published, free);
        }
      }
      if o.Done? {
        closed := true;
      } else {
        if {
          case o.Aborted? => return;
          case true => closed := true;
        }
        var ignored := store.Cancel(id);
      }
    }
  }
  /** An image once committed is what the next lookup of its key returns for seven days, and not
      after that, whenever that lookup completes. */
  method CommitThenGet(handle: ReservationHandle, contentType: string, isImage: bool, body: Bytes, staged: int, published: int,
                       free: nat, at: int, clock: int)
    returns (committed: Outcome, hit: Option<Image>, read: Outcome)
    requires handle.store.Valid() && handle.store.ready && handle.priority <= PROTECTED
    requires DigestKey(handle.key) && (!handle.closed ==> handle.id in handle.store.unstaged)
    modifies handle, handle.store
    ensures committed.Done? && read.Done? ==> hit == if at < published + 604800 then Some(Image(contentType, body)) else None
  {
    hide Safe;
    hit, read := None, Aborted;
    committed := handle.Commit(contentType, isImage, body, staged, published, free, []);
    if committed.Done? {
      assert Live(handle.store.db.variants[handle.key], at) <==> at < published + 604800;
      hit, read := handle.store.GetContext(handle.key, at, clock);
    }
  }
}
