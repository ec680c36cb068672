/** The worker that scans collections, stages what it finds and publishes it. Every statement
    commits at once except inside the two publishing transactions, so a failure at any point
    leaves the state as it is there, which is also what a crash leaves. */
module CollectionSync {
  import opened Basics
  import opened Pagination
  import opened CollectionTables
  import SyncGate

  /** An entry of the catalog; metadata is None if its smart flag is invalid. */
  datatype Entry = Entry(ratingKey: string, title: string, metadata: Option<Metadata>)

  function EntryKey(e: Entry): string {
    e.ratingKey
  }

  function MemberKey(m: Member): string {
    m.ratingKey
  }

  /** The configured page size where it is a usable one. */
  function PageSize(configured: int): (n: nat)
    ensures 1 <= n <= 1000
    ensures 1 <= configured <= 1000 ==> n == configured
    ensures configured <= 0 ==> n == 100
    ensures configured > 1000 ==> n == 1000
  {
    if configured <= 0 then 100 else if configured > 1000 then 1000 else configured
  }

  /** What the origin answers: the catalog pages, and the member pages of each collection. */
  datatype Origin = Origin(catalog: seq<Response<Entry>>, children: map<string, seq<Response<Member>>>)

  function Children(o: Origin, ratingKey: string): seq<Response<Member>> {
    if ratingKey in o.children then o.children[ratingKey] else []
  }

  datatype Request = Reconcile(sections: seq<(string, Origin)>) | Refresh(ratingKey: string, origin: Origin) | Restart

  datatype Outcome = Success | Refused | Broken

  /** scan is what these entries and their complete member lists contain. */
  ghost predicate Scanned(o: Origin, pageSize: nat, library: string, entries: seq<Entry>, scan: map<Id, Hash>) {
    && (forall id | id in scan :: exists i :: 0 <= i < |entries| && id == Id(library, entries[i].ratingKey))
    && (forall i | 0 <= i < |entries| :: EntryScanned(o, pageSize, library, entries[i], scan))
  }

  ghost predicate EntryScanned(o: Origin, pageSize: nat, library: string, e: Entry, scan: map<Id, Hash>) {
    var id := Id(library, e.ratingKey);
    id in scan && e.metadata == Some(scan[id].metadata) && Lists(Children(o, e.ratingKey), pageSize, MemberKey, scan[id].members)
  }

  lemma ScannedNext(o: Origin, pageSize: nat, library: string, entries: seq<Entry>, scan: map<Id, Hash>, e: Entry, h: Hash)
    requires Scanned(o, pageSize, library, entries, scan) && DistinctKeys(entries + [e], EntryKey)
    requires e.metadata == Some(h.metadata) && Lists(Children(o, e.ratingKey), pageSize, MemberKey, h.members)
    ensures Id(library, e.ratingKey) !in scan && Scanned(o, pageSize, library, entries + [e], scan[Id(library, e.ratingKey) := h])
  {
    var id, next := Id(library, e.ratingKey), entries + [e];
    var scan' := scan[id := h];
    assert EntryKey(next[|entries|]) == e.ratingKey;
    forall i | 0 <= i < |entries| ensures entries[i].ratingKey != e.ratingKey {
      assert EntryKey(next[i]) != EntryKey(next[|entries|]);
    }
    forall i | 0 <= i < |next| ensures EntryScanned(o, pageSize, library, next[i], scan') {
      if i < |entries| {
        assert EntryScanned(o, pageSize, library, entries[i], scan);
      }
    }
    forall x | x in scan' ensures exists i :: 0 <= i < |next| && x == Id(library, next[i].ratingKey) {
      if x in scan && x != id {
        var i :| 0 <= i < |entries| && x == Id(library, entries[i].ratingKey);
        assert x == Id(library, next[i].ratingKey);
      } else {
        assert x == Id(library, next[|entries|].ratingKey);
      }
    }
  }

  lemma PageStep(o: Origin, pageSize: nat, library: string, before: seq<Entry>, items: seq<Entry>, i: nat, scan: map<Id, Hash>, h: Hash)
    requires i < |items| && DistinctKeys(before + items, EntryKey) && Scanned(o, pageSize, library, before + items[..i], scan)
    requires items[i].metadata == Some(h.metadata) && Lists(Children(o, items[i].ratingKey), pageSize, MemberKey, h.members)
    ensures Id(library, items[i].ratingKey) !in scan
    ensures Scanned(o, pageSize, library, before + items[..i + 1], scan[Id(library, items[i].ratingKey) := h])
  {
    var sofar := before + items[..i];
    assert before + items[..i + 1] == sofar + [items[i]];
    assert before + items == sofar + [items[i]] + items[i + 1..];
    DistinctPrefix(sofar + [items[i]], items[i + 1..], EntryKey);
    ScannedNext(o, pageSize, library, sofar, scan, items[i], h);
  }

  lemma NothingListed(responses: seq<Response<Member>>, pages: seq<Page<Member>>, pageSize: nat)
    requires Answers(responses, pages) && Unfinished(pages, pageSize)
    requires |pages| >= PAGE_BOUND || |pages| == |responses| || !Acceptable(pages, responses[|pages|], pageSize, MemberKey)
    ensures forall list :: !Lists(responses, pageSize, MemberKey, list)
  {
    forall list ensures !Lists(responses, pageSize, MemberKey, list) {
      RejectedListsNothing(responses, pages, pageSize, MemberKey, list);
    }
  }

  /** A commit changes what one library shows at most; without one nothing changes. */
  lemma SameViewElsewhere(t: Tables, u: Tables, library: string, committed: bool)
    requires if committed then forall id: Id | id.library != library :: SameAt(t, u, id) else SameViews(t, u)
    ensures forall other | other != library || !committed :: View(u, other) == View(t, other)
  {
    forall other | other != library || !committed ensures View(u, other) == View(t, other) {
      SameView(t, u, other);
    }
  }

  class Worker {
    const pageSize: nat
    /** Whether an invalidation hook is wired. */
    const hook: bool
    var db: Tables
    var inFlight: bool
    /** The libraries whose view has changed since the last successful invalidation. */
    ghost var unflushed: set<string>
    /** The same worker as a state of SyncGate, and the steps that led there. */
    ghost var gate: SyncGate.State
    ghost var history: seq<SyncGate.Step>

    /** A view change that has not been followed by an invalidation is on record as pending. */
    ghost predicate Valid()
      reads this
    {
      pageSize > 0 && Inv(db) && unflushed <= Marks(db)
    }

    /** What the worker has done is a run of SyncGate behind the gate. */
    ghost predicate Linked()
      reads this
    {
      SyncGate.Leads(SyncGate.INITIAL, history, true, gate) && gate.pending == Marks(db) && gate.unflushed == unflushed
    }

    /** The one sync in flight is in this phase. */
    ghost predicate InPhase(phase: SyncGate.Phase)
      reads this
    {
      Linked() && gate.syncs == map[0 := phase]
    }

    ghost predicate Idle()
      reads this
    {
      Linked() && (!inFlight ==> gate.syncs == map[])
    }

    constructor (configured: int, hook: bool)
      ensures Valid() && Idle() && db == EMPTY && !inFlight && unflushed == {}
    {
      pageSize, this.hook := PageSize(configured), hook;
      db, inFlight, unflushed := EMPTY, false, {};
      gate, history := SyncGate.INITIAL, [];
    }

    ghost method Note(step: SyncGate.Step)
      requires SyncGate.Leads(SyncGate.INITIAL, history, true, gate) && SyncGate.Enabled(gate, step, true)
      modifies this`gate, this`history
      ensures SyncGate.Leads(SyncGate.INITIAL, history, true, gate) && gate == SyncGate.Apply(old(gate), step)
    {
      SyncGate.LeadsOn(SyncGate.INITIAL, history, true, gate, step);
      gate, history := SyncGate.Apply(gate, step), history + [step];
    }

    // ---- Staging -------------------------------------------------------------------------------

    /** Inserts the members of one page at their positions, or stops at a failing statement. */
    method InsertMembers(id: Id, gen: nat, metadata: Metadata, items: seq<Member>, start: nat, ghost before: seq<Member>)
      returns (ok: bool, ghost staged: seq<Member>)
      requires start == |before| && (id, gen) in db.snapshots && db.snapshots[(id, gen)] == Snapshot(metadata, Positions(before), None)
      modifies this`db
      ensures db == PutSnapshot(old(db), id, gen, Snapshot(metadata, Positions(staged), None))
      ensures ok ==> staged == before + items
    {
      ok, staged := true, before;
      var i := 0;
      assert before + items[..0] == before;
      while i < |items| && ok
        invariant 0 <= i <= |items| && staged == before + items[..i]
        invariant db == PutSnapshot(old(db), id, gen, Snapshot(metadata, Positions(staged), None))
        decreases ok, |items| - i
      {
        ok := *;
        if ok {
          var s := db.snapshots[(id, gen)];
          PositionsNext(staged, items[i]);
          assert before + items[..i + 1] == staged + [items[i]];
          db := PutSnapshot(db, id, gen, s.(members := s.members[start + i := items[i]]));
          staged := staged + [items[i]];
          i := i + 1;
        }
      }
      assert items[..|items|] == items;
    }

    /** Checks one page of members and inserts it. */
    method StagePage(id: Id, gen: nat, metadata: Metadata, r: Response<Member>, start: nat, expected: int, seen: set<string>, ghost pages: seq<Page<Member>>)
      returns (verdict: Verdict, ok: bool, expected': int, seen': set<string>, ghost staged: seq<Member>)
      requires pageSize > 0 && ReadSoFar(pages, pageSize, MemberKey, start, expected, seen)
      requires (id, gen) in db.snapshots && db.snapshots[(id, gen)] == Snapshot(metadata, Positions(Items(pages)), None)
      modifies this`db
      ensures db == PutSnapshot(old(db), id, gen, Snapshot(metadata, Positions(staged), None))
      ensures verdict.Rejected? <==> !Acceptable(pages, r, pageSize, MemberKey)
      ensures verdict.Done? ==> Ends(pages + [r.page], |pages|, pageSize)
      ensures verdict.More? ==> ReadSoFar(pages + [r.page], pageSize, MemberKey, start + |r.page.items|, expected', seen')
      ensures !verdict.Rejected? && ok ==> staged == Items(pages + [r.page])
    {
      verdict, expected', seen' := ReadPage(r, pageSize, MemberKey, start, expected, seen, pages);
      ok, staged := false, Items(pages);
      if !verdict.Rejected? {
        ok, staged := InsertMembers(id, gen, metadata, r.page.items, start, Items(pages));
        ItemsNext(pages, r.page);
      }
    }

    /** Pages through the members and stages them; at the end the snapshot is marked complete. */
    method StageMembers(id: Id, gen: nat, metadata: Metadata, responses: seq<Response<Member>>)
      returns (o: Outcome, ghost items: seq<Member>, ghost s: Snapshot)
      requires pageSize > 0 && (id, gen) in db.snapshots && db.snapshots[(id, gen)] == Snapshot(metadata, Positions([]), None)
      modifies this`db
      ensures db == PutSnapshot(old(db), id, gen, s) && SnapshotOk(s)
      ensures o.Success? ==> Lists(responses, pageSize, MemberKey, items) && s == Completed(Hash(metadata, items))
      ensures o.Refused? ==> forall list :: !Lists(responses, pageSize, MemberKey, list)
    {
      var n, start, expected, seen, content := 0, 0, -1, {}, [];
      ghost var pages: seq<Page<Member>> := [];
      items, s := [], Snapshot(metadata, Positions([]), None);
      assert db == PutSnapshot(db, id, gen, s) by { assert db.snapshots[(id, gen) := s] == db.snapshots; }
      while n < PAGE_BOUND && n < |responses|
        invariant |pages| == n <= PAGE_BOUND && Answers(responses, pages) && ReadSoFar(pages, pageSize, MemberKey, start, expected, seen)
        invariant content == Items(pages) && s == Snapshot(metadata, Positions(content), None) && db == PutSnapshot(old(db), id, gen, s)
      {
        var verdict, ok;
        ghost var staged;
        verdict, ok, expected, seen, staged := StagePage(id, gen, metadata, responses[n], start, expected, seen, pages);
        PutTwice(old(db), id, gen, s, Snapshot(metadata, Positions(staged), None));
        s := Snapshot(metadata, Positions(staged), None);
        if verdict.Rejected? {
          break;
        }
        if !ok {
          return Broken, items, s;
        }
        content := content + responses[n].page.items;
        assert content == Items(pages + [responses[n].page]) by { ItemsNext(pages, responses[n].page); }
        if verdict.Done? {
          assert Lists(responses, pageSize, MemberKey, content) by { DoneLists(responses, pages, pageSize, MemberKey); }
          ghost var before := s;
          o, s := MarkComplete(id, gen, metadata, content);
          PutTwice(old(db), id, gen, before, s);
          return o, content, s;
        }
        AnswersNext(responses, pages);
        pages, start, n := pages + [responses[n].page], start + |responses[n].page.items|, n + 1;
      }
      NothingListed(responses, pages, pageSize);
      o := Refused;
    }

    method MarkComplete(id: Id, gen: nat, metadata: Metadata, content: seq<Member>) returns (o: Outcome, ghost s: Snapshot)
      requires (id, gen) in db.snapshots && SnapshotOk(db.snapshots[(id, gen)])
      modifies this`db
      ensures db == PutSnapshot(old(db), id, gen, s) && SnapshotOk(s) && !o.Refused?
      ensures o.Success? ==> s == Completed(Hash(metadata, content))
    {
      o, s := Broken, db.snapshots[(id, gen)];
      assert db.snapshots[(id, gen) := s] == db.snapshots;
      if * {
        o, s := Success, Completed(Hash(metadata, content));
        CompletedOk(Hash(metadata, content));
        db := PutSnapshot(db, id, gen, Completed(Hash(metadata, content)));
      }
    }

    /** Stages one collection: its row, a snapshot, and every member. */
    method StageCollection(library: string, e: Entry, gen: nat, origin: Origin) returns (o: Outcome, ghost h: Hash)
      requires Valid()
      modifies this`db
      ensures StageEffect(old(db), db, Id(library, e.ratingKey), e.title, gen)
      ensures o.Success? ==>
                && e.metadata == Some(h.metadata) && Lists(Children(origin, e.ratingKey), pageSize, MemberKey, h.members)
                && db == PutSnapshot(AddRow(old(db), Id(library, e.ratingKey), e.title), Id(library, e.ratingKey), gen, Completed(h))
      ensures o.Refused? ==> e.metadata.None? || forall list :: !Lists(Children(origin, e.ratingKey), pageSize, MemberKey, list)
    {
      var id := Id(library, e.ratingKey);
      h := Hash(Metadata("", "", "", "", "", "", false), []);
      if e.metadata.None? {
        return Refused, h;
      }
      var inserts, stages := *, *;
      if !inserts {
        return Broken, h;
      }
      db := AddRow(db, id, e.title);
      ghost var added := db;
      if (id, gen) in db.snapshots || !stages {
        return Broken, h;
      }
      var empty := Snapshot(e.metadata.value, Positions([]), None);
      db := PutSnapshot(db, id, gen, empty);
      ghost var items, s;
      o, items, s := StageMembers(id, gen, e.metadata.value, Children(origin, e.ratingKey));
      PutTwice(added, id, gen, empty, s);
      h := Hash(e.metadata.value, items);
    }

    /** Stages entry i of a catalog page. */
    method StageEntry(library: string, items: seq<Entry>, i: nat, gen: nat, origin: Origin, ghost before: seq<Entry>, ghost scan: map<Id, Hash>)
      returns (o: Outcome, ghost scan': map<Id, Hash>)
      requires Valid() && Unused(db, gen) && i < |items| && DistinctKeys(before + items, EntryKey)
      requires Scanned(origin, pageSize, library, before + items[..i], scan) && Staged(db, library, gen, scan)
      modifies this`db
      ensures OnlyStaged(old(db), db, gen)
      ensures o.Success? ==> Scanned(origin, pageSize, library, before + items[..i + 1], scan') && Staged(db, library, gen, scan')
    {
      ghost var h;
      var e := items[i];
      o, h := StageCollection(library, e, gen, origin);
      scan' := scan[Id(library, e.ratingKey) := h];
      assert OnlyStaged(old(db), db, gen) by { StageKeeps(old(db), db, Id(library, e.ratingKey), e.title, gen); }
      if o.Success? {
        PageStep(origin, pageSize, library, before, items, i, scan, h);
        StagedNext(old(db), library, gen, scan, Id(library, e.ratingKey), e.title, h);
      }
    }

    /** Stages the entries of one catalog page. */
    method StageEntries(library: string, items: seq<Entry>, gen: nat, origin: Origin, ghost before: seq<Entry>, ghost scan: map<Id, Hash>)
      returns (o: Outcome, ghost scan': map<Id, Hash>)
      requires Valid() && Unused(db, gen) && DistinctKeys(before + items, EntryKey)
      requires Scanned(origin, pageSize, library, before, scan) && Staged(db, library, gen, scan)
      modifies this`db
      ensures Valid() && OnlyStaged(old(db), db, gen)
      ensures o.Success? ==> Scanned(origin, pageSize, library, before + items, scan') && Staged(db, library, gen, scan')
    {
      scan', o := scan, Success;
      var i := 0;
      assert before + items[..0] == before;
      while i < |items| && o.Success?
        invariant 0 <= i <= |items| && OnlyStaged(old(db), db, gen)
        invariant o.Success? ==> Scanned(origin, pageSize, library, before + items[..i], scan') && Staged(db, library, gen, scan')
      {
        ghost var t := db;
        o, scan' := StageEntry(library, items, i, gen, origin, before, scan');
        OnlyStagedThen(old(db), t, db, gen);
        i := i + 1;
      }
      assert items[..|items|] == items;
    }

    /** Pages through the catalog and stages every collection in it. */
    method ScanCatalog(library: string, gen: nat, origin: Origin) returns (o: Outcome, ghost entries: seq<Entry>, ghost scan: map<Id, Hash>)
      requires Valid() && Unused(db, gen) && Staged(db, library, gen, map[])
      modifies this`db
      ensures Valid() && OnlyStaged(old(db), db, gen)
      ensures o.Success? ==> Lists(origin.catalog, pageSize, EntryKey, entries) && Scanned(origin, pageSize, library, entries, scan)
      ensures o.Success? ==> Staged(db, library, gen, scan)
    {
      var n, start, expected, seen := 0, 0, -1, {};
      ghost var pages: seq<Page<Entry>> := [];
      entries, scan, o := [], map[], Refused;
      while n < PAGE_BOUND && n < |origin.catalog|
        invariant |pages| == n <= PAGE_BOUND && Answers(origin.catalog, pages) && ReadSoFar(pages, pageSize, EntryKey, start, expected, seen)
        invariant Scanned(origin, pageSize, library, Items(pages), scan) && Staged(db, library, gen, scan)
        invariant OnlyStaged(old(db), db, gen)
      {
        var verdict;
        verdict, expected, seen := ReadPage(origin.catalog[n], pageSize, EntryKey, start, expected, seen, pages);
        if verdict.Rejected? {
          return Refused, entries, scan;
        }
        var items := origin.catalog[n].page.items;
        ghost var t := db;
        ItemsNext(pages, origin.catalog[n].page);
        o, scan := StageEntries(library, items, gen, origin, Items(pages), scan);
        OnlyStagedThen(old(db), t, db, gen);
        if !o.Success? {
          return o, entries, scan;
        }
        if verdict.Done? {
          entries := Items(pages) + items;
          assert Lists(origin.catalog, pageSize, EntryKey, entries) by { DoneLists(origin.catalog, pages, pageSize, EntryKey); }
          return Success, entries, scan;
        }
        AnswersNext(origin.catalog, pages);
        pages, start, n := pages + [origin.catalog[n].page], start + |items|, n + 1;
      }
      o := Refused;
    }

    // ---- Publication -----------------------------------------------------------------------------

    method IsChanged(library: string, gen: nat) returns (changed: bool)
      ensures changed == Changed(db, library, gen)
    {
      changed := false;
      var todo := db.rows.Keys;
      while todo != {} && !changed
        invariant todo <= db.rows.Keys
        invariant changed ==> Changed(db, library, gen)
        invariant !changed ==> forall id | id in db.rows && id !in todo && id.library == library ::
                                 (id, gen) in db.snapshots && HashAt(db, id, Some(gen)) == HashAt(db, id, db.rows[id].published)
        decreases |todo|
      {
        var id :| id in todo;
        if id.library == library {
          changed := (id, gen) !in db.snapshots || HashAt(db, id, Some(gen)) != HashAt(db, id, db.rows[id].published);
        }
        todo := todo - {id};
      }
    }

    /** Retries a pending invalidation; it clears the mark only after the invalidation succeeded. */
    method FlushCollectionInvalidation(library: string) returns (ok: bool)
      requires Valid() && InPhase(SyncGate.Committed(library))
      modifies this`db, this`unflushed, this`gate, this`history
      ensures Valid() && db == old(db).(pending := db.pending) && db.pending.Keys == old(db.pending).Keys
      ensures unflushed <= old(unflushed)
      ensures library !in db.pending ==> !ok
      ensures ok && hook ==> !db.pending[library] && library !in unflushed
      ensures InPhase(SyncGate.Between)
    {
      hide SyncGate.Leads, Inv;
      var queried, invalidates, clears := *, *, *;
      ok := queried && library in db.pending;
      if !ok {
        Note(SyncGate.GiveUp(0));
        return;
      }
      Note(SyncGate.ReadMark(0));
      if db.pending[library] && !hook {
        Note(SyncGate.GiveUp(0));
      } else if db.pending[library] {
        ok := invalidates;
        Note(SyncGate.Invalidate(0, ok));
        if invalidates {
          unflushed := {};
          ok := clears;
          if clears {
            UnmarkKeeps(db, library);
            db := db.(pending := db.pending[library := false]);
          }
          Note(SyncGate.ClearMark(0, clears));
        }
      }
    }

    /** Publishes the staged generation of a library. The commit may succeed and still be reported
        as an error. */
    method CommitLibrary(library: string, gen: nat, ghost scan: map<Id, Hash>) returns (ok: bool, ghost committed: bool)
      requires Valid() && Unused(db, gen) && Staged(db, library, gen, scan) && library in db.pending && InPhase(SyncGate.Between)
      modifies this`db, this`unflushed, this`gate, this`history
      ensures Valid() && (ok ==> committed) && library in db.pending
      ensures committed ==> View(db, library) == ScanView(scan) && forall id: Id | id.library != library :: SameAt(old(db), db, id)
      ensures !committed ==> db == old(db)
      ensures InPhase(if committed then SyncGate.Committed(library) else SyncGate.Between)
    {
      hide Inv, Publish, View, Staged, Unused, Changed, ScanView, Marks, SyncGate.Leads;
      var changed := IsChanged(library, gen);
      var commits, reported := *, *;
      ok, committed := false, false;
      if commits {
        ghost var t := db;
        PublishKeeps(t, library, gen, scan, changed);
        PublishShowsScan(t, library, gen, scan, changed);
        PublishMarks(t, library, gen, scan, changed);
        db := Publish(db, library, gen, changed);
        ghost var visible := View(db, library) != View(t, library);
        if visible {
          unflushed := unflushed + {library};
        }
        Note(SyncGate.Commit(0, library, changed, visible));
        ok, committed := reported, true;
      }
    }

    /** Drops some old snapshots that are not published. */
    method PruneOld() returns (ok: bool)
      requires Valid()
      modifies this`db
      ensures Valid() && SameViews(old(db), db) && db.pending == old(db).pending
    {
      ok := *;
      if ok {
        var unpublished := set k | k in db.snapshots && (k.0 in db.rows ==> db.rows[k.0].published != Some(k.1));
        var weekOld: set<(Id, nat)> := *;
        db := db.(snapshots := db.snapshots - (weekOld * unpublished));
        PrunedKeeps(old(db), db);
      }
    }

    /** What follows a commit: the invalidation, and pruning. */
    method Settle(library: string) returns (ok: bool)
      requires Valid() && library in db.pending && InPhase(SyncGate.Committed(library))
      modifies this`db, this`unflushed, this`gate, this`history
      ensures Valid() && SameViews(old(db), db) && InPhase(SyncGate.Between)
      ensures ok && hook ==> library in db.pending && !db.pending[library] && library !in unflushed
    {
      ok := FlushCollectionInvalidation(library);
      ghost var t := db;
      PendingIrrelevant(old(db), t);
      if ok {
        ok := PruneOld();
        SameViewsThen(old(db), t, db);
      }
    }

    /** Registers the library, takes a generation and scans the catalog under it. */
    method Scan(library: string, origin: Origin) returns (ok: bool, gen: nat, ghost entries: seq<Entry>, ghost scan: map<Id, Hash>)
      requires Valid()
      modifies this`db
      ensures Valid() && SameViews(old(db), db) && Marks(db) == Marks(old(db))
      ensures ok ==> library in db.pending && Unused(db, gen) && Staged(db, library, gen, scan)
      ensures ok ==> Lists(origin.catalog, pageSize, EntryKey, entries) && Scanned(origin, pageSize, library, entries, scan)
    {
      ok, gen, entries, scan := *, 0, [], map[];
      if ok {
        AddSyncKeeps(db, library);
        db := AddSync(db, library);
        ghost var t := db;
        AdvanceKeeps(db, library);
        gen := db.nextGen;
        db := Advance(db);
        ghost var u := db;
        SameViewsThen(old(db), t, u);
        var o;
        o, entries, scan := ScanCatalog(library, gen, origin);
        SameViewsThen(old(db), u, db);
        ok := o.Success?;
      }
    }

    /** Reconciles the collections of a library. Until the commit every view is unchanged; after
        it the library shows exactly the complete scan. */
    method SyncLibraryCollections(library: string, origin: Origin)
      returns (ok: bool, ghost committed: bool, ghost entries: seq<Entry>, ghost scan: map<Id, Hash>)
      requires Valid() && InPhase(SyncGate.Between)
      modifies this`db, this`unflushed, this`gate, this`history
      ensures Valid() && InPhase(SyncGate.Between)
      ensures committed ==> Lists(origin.catalog, pageSize, EntryKey, entries) && Scanned(origin, pageSize, library, entries, scan)
      ensures committed ==> View(db, library) == ScanView(scan) && forall id: Id | id.library != library :: SameAt(old(db), db, id)
      ensures !committed ==> SameViews(old(db), db)
      ensures ok ==> committed && (hook ==> library in db.pending && !db.pending[library] && library !in unflushed)
    {
      hide Inv, Marks, SameAt, Unused, Staged, Lists, Scanned, View, ScanView, SyncGate.Leads;
      var gen;
      committed := false;
      ok, gen, entries, scan := Scan(library, origin);
      if ok {
        ghost var t := db;
        ok, committed := CommitLibrary(library, gen, scan);
        if ok {
          SameElsewhereThen(old(db), t, db, library);
          ghost var u := db;
          ok := Settle(library);
          SameElsewhereThen(old(db), u, db, library);
          SameView(u, db, library);
        } else if committed {
          SameElsewhereThen(old(db), t, db, library);
          Note(SyncGate.GiveUp(0));
        }
      }
    }

    // ---- One collection ------------------------------------------------------------------------------

    /** Publishes the staged snapshot of one collection. */
    method CommitOne(id: Id, gen: nat) returns (ok: bool, ghost committed: bool)
      requires Valid() && Unused(db, gen) && id in db.rows && IsStaged(db, id, gen) && id.library in db.pending && InPhase(SyncGate.Between)
      modifies this`db, this`unflushed, this`gate, this`history
      ensures Valid() && (ok ==> committed) && id.library in db.pending
      ensures committed ==>
                && IsShown(db, id)
                && ShownAt(db, id) == Shown(HashAt(old(db), id, Some(gen)).value.metadata, Positions(HashAt(old(db), id, Some(gen)).value.members))
                && forall other | other != id :: SameAt(old(db), db, other)
      ensures !committed ==> db == old(db)
      ensures InPhase(if committed then SyncGate.Committed(id.library) else SyncGate.Between)
    {
      hide Inv, PublishOne, Unused, Marks, SameAt, IsShown, ShownAt, SyncGate.Leads;
      var commits, reported := *, *;
      ok, committed := false, false;
      if commits {
        ghost var t := db;
        PublishOneShows(t, id, gen);
        db := PublishOne(db, id, gen);
        UnchangedOne(t, id, gen);
        MarksOne(t, id, gen);
        ghost var visible := !SameAt(t, db, id);
        if visible {
          unflushed := unflushed + {id.library};
        }
        Note(SyncGate.Commit(0, id.library, id.library in Marks(db), visible));
        ok, committed := reported, true;
      }
    }

    /** Refreshes one published collection. */
    method SyncCollectionOnce(ratingKey: string, origin: Origin) returns (ok: bool, ghost touched: Option<Id>, ghost members: seq<Member>)
      requires Valid() && Idle()
      modifies this
      ensures Valid() && Idle() && inFlight == old(inFlight)
      ensures ok ==> touched.Some? && (hook ==> touched.value.library in db.pending && !db.pending[touched.value.library] && touched.value.library !in unflushed)
      ensures touched.None? ==> SameViews(old(db), db)
      ensures touched.Some? ==>
                && touched.value.ratingKey == ratingKey && IsShown(old(db), touched.value) && IsShown(db, touched.value)
                && Lists(Children(origin, ratingKey), pageSize, MemberKey, members)
                && ShownAt(db, touched.value) == Shown(old(db).rows[touched.value].display, Positions(members))
                && forall other | other != touched.value :: SameAt(old(db), db, other)
    {
      hide Inv, Marks, Lists, SyncGate.Leads;
      ok, touched, members := false, None, [];
      if inFlight || ratingKey == "" || !exists id | id in db.rows :: id.ratingKey == ratingKey && db.rows[id].published.Some? {
        return;
      }
      inFlight := true;
      Note(SyncGate.Enter(0));
      var id :| id in db.rows && id.ratingKey == ratingKey && db.rows[id].published.Some?;
      ok, touched, members := RefreshOne(id, origin);
      Note(SyncGate.Leave(0));
      inFlight := false;
    }

    method RefreshOne(id: Id, origin: Origin) returns (ok: bool, ghost touched: Option<Id>, ghost members: seq<Member>)
      requires Valid() && id in db.rows && db.rows[id].published.Some? && InPhase(SyncGate.Between)
      modifies this`db, this`unflushed, this`gate, this`history
      ensures Valid() && InPhase(SyncGate.Between)
      ensures ok ==> touched.Some? && (hook ==> id.library in db.pending && !db.pending[id.library] && id.library !in unflushed)
      ensures touched.None? ==> SameViews(old(db), db)
      ensures touched.Some? ==>
                && touched.value == id && IsShown(old(db), id) && IsShown(db, id) && Lists(Children(origin, id.ratingKey), pageSize, MemberKey, members)
                && ShownAt(db, id) == Shown(old(db).rows[id].display, Positions(members))
                && forall other | other != id :: SameAt(old(db), db, other)
    {
      hide Inv, Marks, Unused, Lists, SyncGate.Leads;
      touched, members := None, [];
      var gen;
      ghost var h;
      ok, gen, h := StageOne(id, origin);
      if ok {
        ghost var u := db;
        ghost var committed;
        ok, committed := CommitOne(id, gen);
        ghost var v := db;
        if ok {
          ok := FlushCollectionInvalidation(id.library);
          PendingIrrelevant(v, db);
        } else if committed {
          Note(SyncGate.GiveUp(0));
        }
        if committed {
          touched, members := Some(id), h.members;
          SameButOne(old(db), u, v, db, id);
        }
      }
    }

    /** Stages a published collection again, with the display data it has. */
    method StageOne(id: Id, origin: Origin) returns (ok: bool, gen: nat, ghost h: Hash)
      requires Valid() && id in db.rows && db.rows[id].published.Some?
      modifies this`db
      ensures Valid() && SameViews(old(db), db) && IsShown(old(db), id) && Marks(db) == Marks(old(db))
      ensures ok ==>
                && id.library in db.pending && id in db.rows && Unused(db, gen) && HashAt(db, id, Some(gen)) == Some(h)
                && h.metadata == old(db).rows[id].display && Lists(Children(origin, id.ratingKey), pageSize, MemberKey, h.members)
    {
      assert RowOk(db, id, db.rows[id]);
      AdvanceKeeps(db, id.library);
      var display := db.rows[id].display;
      gen := db.nextGen;
      db := Advance(db);
      ghost var t := db;
      var o;
      o, h := StageCollection(id.library, Entry(id.ratingKey, display.title, Some(display)), gen, origin);
      StageKeeps(t, db, id, display.title, gen);
      SameViewsThen(old(db), t, db);
      ok := o.Success?;
    }

    // ---- Runs ------------------------------------------------------------------------------------------

    /** A library shows the complete scan of one of the sections. */
    ghost predicate ShowsSection(sections: seq<(string, Origin)>, library: string, scan: map<Id, Hash>)
      reads this
    {
      View(db, library) == ScanView(scan) && IsScanOf(sections, library, scan)
    }

    ghost predicate IsScanOf(sections: seq<(string, Origin)>, library: string, scan: map<Id, Hash>) {
      exists i, entries :: 0 <= i < |sections| && sections[i].0 == library
        && Lists(sections[i].1.catalog, pageSize, EntryKey, entries) && Scanned(sections[i].1, pageSize, library, entries, scan)
    }

    /** Reconciles libraries one after the other; a failing one does not stop the rest. Each library
        shows the complete scan published for it last, or what it showed before. */
    method SyncCollectionsOnce(sections: seq<(string, Origin)>) returns (ok: bool, ghost scans: map<string, map<Id, Hash>>)
      requires Valid() && Idle()
      modifies this
      ensures Valid() && Idle() && inFlight == old(inFlight)
      ensures old(inFlight) ==> !ok && db == old(db) && unflushed == old(unflushed)
      ensures forall library | library in scans :: ShowsSection(sections, library, scans[library])
      ensures forall library | library !in scans :: View(db, library) == View(old(db), library)
      ensures ok ==> forall i | 0 <= i < |sections| :: sections[i].0 in scans
    {
      hide Inv, View, Marks, Scanned, Lists, ScanView, SameAt, SyncGate.Leads;
      ok, scans := !inFlight, map[];
      if ok {
        inFlight := true;
        Note(SyncGate.Enter(0));
        for i := 0 to |sections|
          invariant Valid() && InPhase(SyncGate.Between)
          invariant forall library | library in scans :: ShowsSection(sections, library, scans[library])
          invariant forall library | library !in scans :: View(db, library) == View(old(db), library)
          invariant ok ==> forall j | 0 <= j < i :: sections[j].0 in scans
        {
          ghost var committed, entries, scan;
          ghost var before := db;
          var done;
          done, committed, entries, scan := SyncLibraryCollections(sections[i].0, sections[i].1);
          ok := ok && done;
          SameViewElsewhere(before, db, sections[i].0, committed);
          if committed {
            assert IsScanOf(sections, sections[i].0, scan);
            scans := scans[sections[i].0 := scan];
          }
        }
        Note(SyncGate.Leave(0));
        inFlight := false;
      }
    }

    /** In every run, with failures and crashes at any point: a library that is not marked pending
        has had every change of its view followed by a successful invalidation. The run is one of
        SyncGate, behind the gate. */
    method Run(requests: seq<Request>)
      requires Valid() && Idle()
      modifies this
      ensures Valid() && Idle()
      ensures forall library | library in db.pending && !db.pending[library] :: library !in unflushed
    {
      for i := 0 to |requests|
        invariant Valid() && Idle()
      {
        match requests[i]
        case Reconcile(sections) =>
          ghost var scans;
          var ok;
          ok, scans := SyncCollectionsOnce(sections);
        case Refresh(ratingKey, origin) =>
          ghost var touched, members;
          var ok;
          ok, touched, members := SyncCollectionOnce(ratingKey, origin);
        case Restart =>
          Note(SyncGate.Crash);
          inFlight := false;
      }
    }
  }
}
