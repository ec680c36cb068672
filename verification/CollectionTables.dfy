/** Staged and published collection snapshots, and the SQL statements that change them. */
module CollectionTables {
  import opened Basics

  datatype Metadata = Metadata(key: string, title: string, titleSort: string, summary: string, thumb: string, art: string, smart: bool)

  datatype Member = Member(ratingKey: string, kind: string, title: string, thumb: string, art: string)

  /** A row of library_collections: one for each library and rating key. */
  datatype Id = Id(library: string, ratingKey: string)

  datatype Row = Row(display: Metadata, catalog: nat, published: Option<nat>)

  /** The digest of a metadata object and the members in order, taken as injective. */
  datatype Hash = Hash(metadata: Metadata, members: seq<Member>)

  /** hash is set when the scan of the members has completed. */
  datatype Snapshot = Snapshot(metadata: Metadata, members: map<nat, Member>, hash: Option<Hash>)

  /** pending has an entry for every row of library_collection_syncs. */
  datatype Tables = Tables(rows: map<Id, Row>, snapshots: map<(Id, nat), Snapshot>, pending: map<string, bool>, nextGen: nat)

  const EMPTY := Tables(map[], map[], map[], 1)

  function Positions(members: seq<Member>): map<nat, Member> {
    map i: nat | i < |members| :: members[i]
  }

  // ---- What readers see ----------------------------------------------------------------------

  datatype Shown = Shown(display: Metadata, members: map<nat, Member>)

  predicate IsShown(t: Tables, id: Id) {
    id in t.rows && t.rows[id].published.Some? && (id, t.rows[id].published.value) in t.snapshots
  }

  function ShownAt(t: Tables, id: Id): Shown
    requires IsShown(t, id)
  {
    Shown(t.rows[id].display, t.snapshots[(id, t.rows[id].published.value)].members)
  }

  /** The published collections of a library: display data and members with their positions. */
  function View(t: Tables, library: string): map<Id, Shown> {
    map id | id in t.rows && id.library == library && IsShown(t, id) :: ShownAt(t, id)
  }

  ghost predicate SameAt(t: Tables, u: Tables, id: Id) {
    (IsShown(t, id) <==> IsShown(u, id)) && (IsShown(t, id) ==> ShownAt(t, id) == ShownAt(u, id))
  }

  /** Readers see the same in both, in every library. */
  ghost predicate SameViews(t: Tables, u: Tables) {
    forall id :: SameAt(t, u, id)
  }

  lemma SameView(t: Tables, u: Tables, library: string)
    requires forall id: Id | id.library == library :: SameAt(t, u, id)
    ensures View(t, library) == View(u, library)
  {
    forall id: Id | id.library == library ensures id in View(t, library) <==> id in View(u, library) {
      assert SameAt(t, u, id);
    }
    forall id | id in View(t, library) ensures View(t, library)[id] == View(u, library)[id] {
      assert SameAt(t, u, id);
    }
  }

  // ---- Statements ------------------------------------------------------------------------------

  /** The libraries with an invalidation pending. */
  ghost function Marks(t: Tables): set<string> {
    set library | library in t.pending && t.pending[library]
  }

  function AddSync(t: Tables, library: string): Tables {
    if library in t.pending then t else t.(pending := t.pending[library := false])
  }

  function AddRow(t: Tables, id: Id, title: string): Tables {
    if id in t.rows then t else t.(rows := t.rows[id := Row(Metadata("", title, "", "", "", "", false), 0, None)])
  }

  function PutSnapshot(t: Tables, id: Id, gen: nat, s: Snapshot): Tables {
    t.(snapshots := t.snapshots[(id, gen) := s])
  }

  function HashAt(t: Tables, id: Id, gen: Option<nat>): Option<Hash> {
    if gen.Some? && (id, gen.value) in t.snapshots then t.snapshots[(id, gen.value)].hash else None
  }

  predicate IsStaged(t: Tables, id: Id, gen: nat) {
    HashAt(t, id, Some(gen)).Some?
  }

  /** A collection of the library was not staged, or its staged content differs from the published one. */
  ghost predicate Changed(t: Tables, library: string, gen: nat) {
    exists id | id in t.rows && id.library == library ::
      (id, gen) !in t.snapshots || HashAt(t, id, Some(gen)) != HashAt(t, id, t.rows[id].published)
  }

  /** A published row; unchanged content keeps its generation. */
  function PublishedRow(t: Tables, id: Id, gen: nat, catalog: nat): Row
    requires id in t.rows && IsStaged(t, id, gen)
  {
    var row := t.rows[id];
    Row(t.snapshots[(id, gen)].metadata, catalog, if HashAt(t, id, Some(gen)) != HashAt(t, id, row.published) then Some(gen) else row.published)
  }

  /** Every staged collection of the library becomes published. */
  function Promoted(t: Tables, library: string, gen: nat): map<Id, Row> {
    map id | id in t.rows :: if id.library == library && IsStaged(t, id, gen) then PublishedRow(t, id, gen, gen) else t.rows[id]
  }

  /** Rows of the library from other catalogs go, with their snapshots; so does every snapshot of
      the library that is not the published one of its row. */
  function Swept(t: Tables, rows: map<Id, Row>, library: string, gen: nat): Tables {
    var kept := map id | id in rows && (id.library != library || rows[id].catalog == gen) :: rows[id];
    t.(rows := kept,
       snapshots := map k | k in t.snapshots && k.0 in kept && (k.0.library != library || kept[k.0].published == Some(k.1)) :: t.snapshots[k])
  }

  function MarkPending(t: Tables, library: string, changed: bool): Tables {
    if library in t.pending then t.(pending := t.pending[library := t.pending[library] || changed]) else t
  }

  /** The transaction that publishes a library generation. */
  function Publish(t: Tables, library: string, gen: nat, changed: bool): Tables {
    MarkPending(Swept(t, Promoted(t, library, gen), library, gen), library, changed)
  }

  /** The transaction that publishes one collection. */
  function PublishOne(t: Tables, id: Id, gen: nat): Tables
    requires id in t.rows && IsStaged(t, id, gen)
  {
    var row := PublishedRow(t, id, gen, t.rows[id].catalog);
    var changed := HashAt(t, id, Some(gen)) != HashAt(t, id, t.rows[id].published);
    MarkPending(
      t.(rows := t.rows[id := row],
         snapshots := map k | k in t.snapshots && (k.0 == id ==> row.published == Some(k.1)) :: t.snapshots[k]),
      id.library, changed)
  }

  /** Old snapshots that are not published may go at any time. */
  ghost predicate Pruned(t: Tables, u: Tables) {
    && u == t.(snapshots := u.snapshots)
    && (forall k | k in u.snapshots :: k in t.snapshots && u.snapshots[k] == t.snapshots[k])
    && (forall k | k in t.snapshots && k !in u.snapshots && k.0 in t.rows :: t.rows[k.0].published != Some(k.1))
  }

  // ---- What every statement keeps ----------------------------------------------------------------

  ghost predicate SnapshotOk(s: Snapshot) {
    s.hash.Some? ==> s.hash.value.metadata == s.metadata && s.members == Positions(s.hash.value.members)
  }

  ghost predicate RowOk(t: Tables, id: Id, row: Row) {
    && row.catalog < t.nextGen
    && (row.published.Some? ==>
          && id.library in t.pending && HashAt(t, id, row.published).Some?
          && t.snapshots[(id, row.published.value)].metadata == row.display)
  }

  ghost predicate Inv(t: Tables) {
    && t.nextGen > 0
    && (forall k | k in t.snapshots :: k.0 in t.rows && k.1 < t.nextGen && SnapshotOk(t.snapshots[k]))
    && (forall id | id in t.rows :: RowOk(t, id, t.rows[id]))
  }

  /** No row carries this generation yet. */
  ghost predicate Unused(t: Tables, gen: nat) {
    0 < gen < t.nextGen && forall id | id in t.rows :: t.rows[id].catalog != gen && t.rows[id].published != Some(gen)
  }

  lemma AddSyncKeeps(t: Tables, library: string)
    requires Inv(t)
    ensures Inv(AddSync(t, library)) && SameViews(t, AddSync(t, library)) && Marks(AddSync(t, library)) == Marks(t)
  {
    var u := AddSync(t, library);
    forall id | id in u.rows ensures RowOk(u, id, u.rows[id]) {
      assert RowOk(t, id, t.rows[id]);
    }
  }

  /** Clearing the mark of a library touches nothing else. */
  lemma UnmarkKeeps(t: Tables, library: string)
    requires Inv(t) && library in t.pending
    ensures var u := t.(pending := t.pending[library := false]); Inv(u) && Marks(u) == Marks(t) - {library} && u.pending.Keys == t.pending.Keys
  {
    var u := t.(pending := t.pending[library := false]);
    forall id | id in u.rows ensures RowOk(u, id, u.rows[id]) {
      assert RowOk(t, id, t.rows[id]);
    }
  }

  lemma AddRowKeeps(t: Tables, id: Id, title: string, gen: nat)
    requires Inv(t) && Unused(t, gen)
    ensures var u := AddRow(t, id, title); Inv(u) && Unused(u, gen) && SameViews(t, u)
  {
    var u := AddRow(t, id, title);
    forall i | i in u.rows ensures RowOk(u, i, u.rows[i]) && SameAt(t, u, i) {
      if i in t.rows {
        assert RowOk(t, i, t.rows[i]);
      }
    }
  }

  /** Staging under an unused generation leaves every view as it was. */
  lemma PutSnapshotKeeps(t: Tables, id: Id, gen: nat, s: Snapshot)
    requires Inv(t) && Unused(t, gen) && id in t.rows && SnapshotOk(s)
    ensures var u := PutSnapshot(t, id, gen, s); Inv(u) && Unused(u, gen) && SameViews(t, u)
  {
    var u := PutSnapshot(t, id, gen, s);
    forall i | i in u.rows ensures RowOk(u, i, u.rows[i]) && SameAt(t, u, i) {
      assert RowOk(t, i, t.rows[i]);
    }
  }

  lemma PrunedKeeps(t: Tables, u: Tables)
    requires Inv(t) && Pruned(t, u)
    ensures Inv(u) && SameViews(t, u)
  {
    forall i | i in u.rows ensures RowOk(u, i, u.rows[i]) {
      assert RowOk(t, i, t.rows[i]);
    }
  }

  // ---- Publication ---------------------------------------------------------------------------------

  /** The completed snapshots of this generation in the library are exactly those of the scan. */
  ghost predicate Staged(t: Tables, library: string, gen: nat, scan: map<Id, Hash>) {
    && (forall id | id in scan :: id.library == library && id in t.rows && HashAt(t, id, Some(gen)) == Some(scan[id]))
    && (forall k | k in t.snapshots && k.0.library == library && k.1 == gen :: k.0 in scan)
  }

  ghost function ScanView(scan: map<Id, Hash>): map<Id, Shown> {
    map id | id in scan :: Shown(scan[id].metadata, Positions(scan[id].members))
  }

  lemma PromotedRow(t: Tables, library: string, gen: nat, id: Id)
    requires Inv(t) && Unused(t, gen) && id in t.rows && id.library == library && IsStaged(t, id, gen) && library in t.pending
    ensures
      var row := PublishedRow(t, id, gen, gen);
      && row.published.Some? && HashAt(t, id, row.published) == HashAt(t, id, Some(gen))
      && t.snapshots[(id, row.published.value)].metadata == row.display == HashAt(t, id, Some(gen)).value.metadata
      && t.snapshots[(id, row.published.value)].members == Positions(HashAt(t, id, Some(gen)).value.members)
  {
    var row := PublishedRow(t, id, gen, gen);
    assert RowOk(t, id, t.rows[id]);
    assert (id, row.published.value) in t.snapshots && SnapshotOk(t.snapshots[(id, row.published.value)]);
    assert SnapshotOk(t.snapshots[(id, gen)]);
  }

  /** A row of the library survives publication exactly if it was staged, and then shows what was staged. */
  lemma PublishedAt(t: Tables, library: string, gen: nat, scan: map<Id, Hash>, changed: bool, id: Id)
    requires Inv(t) && Unused(t, gen) && Staged(t, library, gen, scan) && library in t.pending && id.library == library
    ensures
      var u := Publish(t, library, gen, changed);
      && (id in u.rows <==> id in scan)
      && (id in scan ==> IsShown(u, id) && ShownAt(u, id) == Shown(scan[id].metadata, Positions(scan[id].members)) && RowOk(u, id, u.rows[id]))
  {
    if id in t.rows && IsStaged(t, id, gen) {
      assert (id, gen) in t.snapshots && id in scan;
      PromotedRow(t, library, gen, id);
      var row := PublishedRow(t, id, gen, gen);
      assert Promoted(t, library, gen)[id] == row;
      var u := Publish(t, library, gen, changed);
      assert u.rows[id] == row && (id, row.published.value) in u.snapshots;
    }
  }

  lemma PublishedElsewhere(t: Tables, library: string, gen: nat, changed: bool, id: Id)
    requires Inv(t) && id.library != library
    ensures
      var u := Publish(t, library, gen, changed);
      SameAt(t, u, id) && (id in u.rows <==> id in t.rows) && (id in u.rows ==> u.rows[id] == t.rows[id] && RowOk(u, id, u.rows[id]))
  {
    if id in t.rows {
      assert RowOk(t, id, t.rows[id]);
    }
  }

  /** Publication of a library leaves the rows and snapshots of every other library alone. Of its own
      it keeps the rows of this catalog and, of their snapshots, exactly the published ones. */
  lemma PublishSweeps(t: Tables, library: string, gen: nat, changed: bool)
    requires forall k | k in t.snapshots :: k.0 in t.rows
    ensures
      var u := Publish(t, library, gen, changed);
      && (forall id: Id | id.library != library :: (id in u.rows <==> id in t.rows) && (id in u.rows ==> u.rows[id] == t.rows[id]))
      && (forall k: (Id, nat) | k.0.library != library ::
            (k in u.snapshots <==> k in t.snapshots) && (k in u.snapshots ==> u.snapshots[k] == t.snapshots[k]))
      && (forall id | id in u.rows && id.library == library :: id in t.rows && u.rows[id].catalog == gen)
      && (forall k | k in t.snapshots && k.0.library == library ::
            (k in u.snapshots <==> k.0 in u.rows && u.rows[k.0].published == Some(k.1)) && (k in u.snapshots ==> u.snapshots[k] == t.snapshots[k]))
  {
  }

  ghost predicate ShowsScanned(t: Tables, scan: map<Id, Hash>, id: Id) {
    (IsShown(t, id) <==> id in scan) && (id in scan ==> ShownAt(t, id) == Shown(scan[id].metadata, Positions(scan[id].members)))
  }

  lemma ViewIsScan(t: Tables, library: string, scan: map<Id, Hash>)
    requires forall id: Id | id.library == library :: ShowsScanned(t, scan, id)
    requires forall id | id in scan :: id.library == library
    ensures View(t, library) == ScanView(scan)
  {
    var view, expected := View(t, library), ScanView(scan);
    forall id: Id ensures id in view <==> id in expected {
      if id.library == library {
        assert ShowsScanned(t, scan, id);
      }
    }
    forall id | id in expected ensures view[id] == expected[id] {
      assert ShowsScanned(t, scan, id);
    }
  }

  lemma PublishKeeps(t: Tables, library: string, gen: nat, scan: map<Id, Hash>, changed: bool)
    requires Inv(t) && Unused(t, gen) && Staged(t, library, gen, scan) && library in t.pending
    ensures Inv(Publish(t, library, gen, changed))
  {
    var u := Publish(t, library, gen, changed);
    forall id | id in u.rows ensures RowOk(u, id, u.rows[id]) {
      if id.library == library {
        PublishedAt(t, library, gen, scan, changed, id);
      } else {
        PublishedElsewhere(t, library, gen, changed, id);
      }
    }
  }

  /** After publication the library shows exactly the scan (display data, members and order, and
      nothing else), and every other library what it showed before. */
  lemma PublishShowsScan(t: Tables, library: string, gen: nat, scan: map<Id, Hash>, changed: bool)
    requires Inv(t) && Unused(t, gen) && Staged(t, library, gen, scan) && library in t.pending
    ensures
      var u := Publish(t, library, gen, changed);
      View(u, library) == ScanView(scan) && forall id: Id | id.library != library :: SameAt(t, u, id)
  {
    var u := Publish(t, library, gen, changed);
    forall id: Id | id.library != library ensures SameAt(t, u, id) {
      PublishedElsewhere(t, library, gen, changed, id);
    }
    forall id: Id | id.library == library ensures ShowsScanned(u, scan, id) {
      PublishedAt(t, library, gen, scan, changed, id);
    }
    ViewIsScan(u, library, scan);
  }

  /** If nothing is reported changed, the library shows the same before and after. */
  lemma UnchangedShowsSame(t: Tables, library: string, gen: nat, scan: map<Id, Hash>, changed: bool)
    requires Inv(t) && Unused(t, gen) && Staged(t, library, gen, scan) && library in t.pending && !Changed(t, library, gen)
    ensures View(Publish(t, library, gen, changed), library) == View(t, library)
  {
    var u := Publish(t, library, gen, changed);
    forall id: Id | id.library == library ensures SameAt(t, u, id) {
      PublishedAt(t, library, gen, scan, changed, id);
      if id in t.rows {
        assert (id, gen) in t.snapshots && HashAt(t, id, Some(gen)) == HashAt(t, id, t.rows[id].published);
        assert id in scan;
        assert RowOk(t, id, t.rows[id]);
        var k := (id, t.rows[id].published.value);
        assert SnapshotOk(t.snapshots[k]);
      }
    }
    SameView(t, u, library);
  }

  /** A library whose view changes is marked pending, and no mark is lost. */
  lemma PublishMarks(t: Tables, library: string, gen: nat, scan: map<Id, Hash>, changed: bool)
    requires Inv(t) && Unused(t, gen) && Staged(t, library, gen, scan) && library in t.pending && changed == Changed(t, library, gen)
    ensures
      var u := Publish(t, library, gen, changed);
      && u.pending.Keys == t.pending.Keys
      && (View(u, library) != View(t, library) ==> changed)
      && Marks(u) == Marks(t) + if changed then {library} else {}
  {
    hide Inv, Unused, Staged, View, Promoted, Changed;
    if !changed {
      UnchangedShowsSame(t, library, gen, scan, changed);
    }
  }

  /** Publishing one collection shows what was staged for it and leaves every other one alone. */
  lemma PublishOneShows(t: Tables, id: Id, gen: nat)
    requires Inv(t) && Unused(t, gen) && id in t.rows && IsStaged(t, id, gen) && id.library in t.pending
    ensures
      var u := PublishOne(t, id, gen);
      var staged := HashAt(t, id, Some(gen)).value;
      && Inv(u) && IsShown(u, id) && ShownAt(u, id) == Shown(staged.metadata, Positions(staged.members))
      && (forall other | other != id :: SameAt(t, u, other))
  {
    var u := PublishOne(t, id, gen);
    var row := u.rows[id];
    assert RowOk(t, id, t.rows[id]);
    assert SnapshotOk(t.snapshots[(id, gen)]) && SnapshotOk(t.snapshots[(id, row.published.value)]);
    assert (id, row.published.value) in u.snapshots;
    forall i | i in u.rows ensures RowOk(u, i, u.rows[i]) {
      if i != id {
        assert RowOk(t, i, t.rows[i]);
      }
    }
  }

  // ---- Staging ---------------------------------------------------------------------------------

  function Completed(h: Hash): Snapshot {
    Snapshot(h.metadata, Positions(h.members), Some(h))
  }

  lemma PositionsNext(members: seq<Member>, m: Member)
    ensures Positions(members)[|members| := m] == Positions(members + [m])
  {
  }

  lemma PutTwice(t: Tables, id: Id, gen: nat, s: Snapshot, s': Snapshot)
    ensures PutSnapshot(PutSnapshot(t, id, gen, s), id, gen, s') == PutSnapshot(t, id, gen, s')
  {
    assert t.snapshots[(id, gen) := s][(id, gen) := s'] == t.snapshots[(id, gen) := s'];
  }

  lemma CompletedOk(h: Hash)
    ensures SnapshotOk(Completed(h))
  {
  }

  /** What staging one collection can leave behind, complete or not. */
  ghost predicate StageEffect(t: Tables, u: Tables, id: Id, title: string, gen: nat) {
    || u == t
    || u == AddRow(t, id, title)
    || exists s :: SnapshotOk(s) && u == PutSnapshot(AddRow(t, id, title), id, gen, s)
  }

  /** What staging for one generation keeps, whether or not it gets to the end. */
  ghost predicate OnlyStaged(t: Tables, u: Tables, gen: nat) {
    Inv(u) && Unused(u, gen) && SameViews(t, u) && u.pending == t.pending && u.nextGen == t.nextGen
  }

  lemma StageKeeps(t: Tables, u: Tables, id: Id, title: string, gen: nat)
    requires Inv(t) && Unused(t, gen) && StageEffect(t, u, id, title, gen)
    ensures OnlyStaged(t, u, gen)
  {
    if u != t {
      var v := AddRow(t, id, title);
      AddRowKeeps(t, id, title, gen);
      if u != v {
        var s :| SnapshotOk(s) && u == PutSnapshot(v, id, gen, s);
        PutSnapshotKeeps(v, id, gen, s);
        SameViewsThen(t, v, u);
      }
    }
  }

  lemma StagedNext(t: Tables, library: string, gen: nat, scan: map<Id, Hash>, id: Id, title: string, h: Hash)
    requires Staged(t, library, gen, scan) && id.library == library && id !in scan
    ensures Staged(PutSnapshot(AddRow(t, id, title), id, gen, Completed(h)), library, gen, scan[id := h])
  {
    var u := PutSnapshot(AddRow(t, id, title), id, gen, Completed(h));
    forall other | other in scan[id := h]
      ensures other.library == library && other in u.rows && HashAt(u, other, Some(gen)) == Some(scan[id := h][other])
    {
      if other != id {
        assert HashAt(t, other, Some(gen)) == Some(scan[other]);
      }
    }
  }

  lemma SameViewsThen(t: Tables, u: Tables, v: Tables)
    requires SameViews(t, u) && SameViews(u, v)
    ensures SameViews(t, v)
  {
    forall id ensures SameAt(t, v, id) {
      assert SameAt(t, u, id) && SameAt(u, v, id);
    }
  }

  lemma OnlyStagedThen(t: Tables, u: Tables, v: Tables, gen: nat)
    requires OnlyStaged(t, u, gen) && OnlyStaged(u, v, gen)
    ensures OnlyStaged(t, v, gen)
  {
    SameViewsThen(t, u, v);
  }

  /** Taking a new generation from the sequence. */
  function Advance(t: Tables): Tables {
    t.(nextGen := t.nextGen + 1)
  }

  lemma AdvanceKeeps(t: Tables, library: string)
    requires Inv(t)
    ensures Inv(Advance(t)) && Unused(Advance(t), t.nextGen) && SameViews(t, Advance(t)) && Staged(Advance(t), library, t.nextGen, map[])
  {
    var u := Advance(t);
    forall id | id in u.rows ensures RowOk(u, id, u.rows[id]) && u.rows[id].published != Some(t.nextGen) {
      assert RowOk(t, id, t.rows[id]);
    }
  }

  lemma PendingIrrelevant(t: Tables, u: Tables)
    requires u == t.(pending := u.pending)
    ensures SameViews(t, u)
  {
  }

  lemma SameElsewhereThen(t: Tables, u: Tables, v: Tables, library: string)
    requires (forall id: Id | id.library != library :: SameAt(t, u, id)) && (forall id: Id | id.library != library :: SameAt(u, v, id))
    ensures forall id: Id | id.library != library :: SameAt(t, v, id)
  {
    forall id: Id | id.library != library ensures SameAt(t, v, id) {
      assert SameAt(t, u, id) && SameAt(u, v, id);
    }
  }

  lemma MarksOne(t: Tables, id: Id, gen: nat)
    requires id in t.rows && IsStaged(t, id, gen) && id.library in t.pending
    ensures
      var u := PublishOne(t, id, gen);
      u.pending.Keys == t.pending.Keys && (Marks(u) == Marks(t) || Marks(u) == Marks(t) + {id.library})
  {
    hide PublishedRow, HashAt, IsStaged;
  }

  /** An unchanged collection shows the same before and after. */
  lemma UnchangedOne(t: Tables, id: Id, gen: nat)
    requires Inv(t) && Unused(t, gen) && id in t.rows && IsStaged(t, id, gen) && id.library in t.pending
    ensures !SameAt(t, PublishOne(t, id, gen), id) ==> id.library in Marks(PublishOne(t, id, gen))
  {
    if HashAt(t, id, Some(gen)) == HashAt(t, id, t.rows[id].published) {
      PublishOneShows(t, id, gen);
      assert RowOk(t, id, t.rows[id]);
      assert SnapshotOk(t.snapshots[(id, t.rows[id].published.value)]);
    }
  }

  lemma SameButOne(t: Tables, u: Tables, v: Tables, w: Tables, id: Id)
    requires SameViews(t, u) && (forall other | other != id :: SameAt(u, v, other)) && SameViews(v, w)
    ensures forall other | other != id :: SameAt(t, w, other)
    ensures SameAt(v, w, id)
  {
    forall other | other != id ensures SameAt(t, w, other) {
      assert SameAt(t, u, other) && SameAt(u, v, other) && SameAt(v, w, other);
    }
  }
}
