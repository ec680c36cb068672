/** Where the candidates of a negotiation come from: the owner index, whose tables are modelled
    with their uniqueness constraints, or else the live metadata of the media server. */
module MediaSources {
  import opened Basics
  import opened PolicyEngine

  /** What a policy looks at. */
  datatype Description = Description(
    index: int, width: Option<int>, height: Option<int>, bitrate: Option<int>, range: DynamicRange,
    codec: string, audio: Option<int>)

  /** A candidate with where it comes from; variantId is empty for live metadata. */
  datatype Source = Source(media: Description, available: bool, partKey: string, partId: string, variantId: string)

  /** Whether a client can play a source directly is never known beforehand. */
  function ToVariant(s: Source): Variant {
    var m := s.media;
    Variant(m.index, m.width, m.height, m.bitrate, m.range, m.codec, m.audio, UnknownPlayability, s.available)
  }

  function ToVariants(sources: seq<Source>): (vs: seq<Variant>)
    ensures |vs| == |sources| && forall i | 0 <= i < |vs| :: vs[i] == ToVariant(sources[i])
  {
    seq(|sources|, i requires 0 <= i < |sources| => ToVariant(sources[i]))
  }

  predicate Eligible(p: Policy, s: Source) {
    Permitted(p, ToVariant(s))
  }

  /** A source is eligible exactly if it has a part and its own description meets the policy. */
  lemma EligibleMeans(p: Policy, s: Source)
    ensures Eligible(p, s) <==> s.available && Meets(p, s.media.width, s.media.height, s.media.bitrate, s.media.range)
  {
    PermittedMeans(p, ToVariant(s));
  }

  /** No media index occurs twice, and a source is available exactly if it has a part key. */
  predicate SourcesOk(sources: seq<Source>) {
    && DistinctIndexes(ToVariants(sources))
    && forall s | s in sources :: s.available <==> s.partKey != ""
  }

  // ---- The owner index ----------------------------------------------------------------------

  datatype Item = Item(server: string, ratingKey: string)

  datatype VariantRow = VariantRow(item: string, media: Description)

  datatype PartRow = PartRow(variant: string, number: int, plexId: string, key: string)

  datatype Index = Index(enabled: set<string>, items: map<string, Item>, variants: map<string, VariantRow>, parts: map<string, PartRow>)

  /** The foreign keys and unique indexes of the schema. */
  ghost predicate SchemaOk(ix: Index) {
    && (forall a, b | a in ix.enabled && b in ix.enabled :: a == b)
    && (forall a, b | a in ix.items && b in ix.items && ix.items[a] == ix.items[b] :: a == b)
    && (forall v | v in ix.variants :: ix.variants[v].item in ix.items)
    && (forall v, w | v in ix.variants && w in ix.variants && ix.variants[v].item == ix.variants[w].item
          && ix.variants[v].media.index == ix.variants[w].media.index :: v == w)
    && (forall p | p in ix.parts :: ix.parts[p].variant in ix.variants)
    && (forall p, q | p in ix.parts && q in ix.parts && ix.parts[p].variant == ix.parts[q].variant
          && ix.parts[p].number == ix.parts[q].number :: p == q)
    && (forall p, q | p in ix.parts && q in ix.parts && ix.parts[p].plexId == ix.parts[q].plexId :: p == q)
  }

  /** The variant belongs to the title, on the enabled server. */
  predicate Listed(ix: Index, v: string, ratingKey: string) {
    && v in ix.variants && ix.variants[v].item in ix.items
    && ix.items[ix.variants[v].item].server in ix.enabled && ix.items[ix.variants[v].item].ratingKey == ratingKey
  }

  /** A title has one variant for each media index. */
  lemma OneVariantPerIndex(ix: Index, v: string, w: string, ratingKey: string)
    requires SchemaOk(ix) && Listed(ix, v, ratingKey) && Listed(ix, w, ratingKey)
    requires ix.variants[v].media.index == ix.variants[w].media.index
    ensures v == w
  {
    var a, b := ix.variants[v].item, ix.variants[w].item;
    assert ix.items[a].server == ix.items[b].server;
    assert ix.items[a] == ix.items[b];
  }

  function MediaIndex(ix: Index, v: string): int {
    if v in ix.variants then ix.variants[v].media.index else 0
  }

  /** The source of a variant with the given part. */
  function SourceOf(ix: Index, v: string, p: string): Source
    requires v in ix.variants && p in ix.parts
  {
    Source(ix.variants[v].media, ix.parts[p].key != "", ix.parts[p].key, ix.parts[p].plexId, v)
  }

  predicate IsFirstPart(ix: Index, v: string, p: string) {
    p in ix.parts && ix.parts[p].variant == v && ix.parts[p].number == 0
  }

  method FirstPart(ix: Index, v: string) returns (p: Option<string>)
    ensures if p.Some? then IsFirstPart(ix, v, p.value) else forall q :: !IsFirstPart(ix, v, q)
  {
    var todo := ix.parts.Keys;
    while todo != {}
      invariant todo <= ix.parts.Keys
      invariant forall q | q in ix.parts && q !in todo :: !IsFirstPart(ix, v, q)
      decreases |todo|
    {
      var q :| q in todo;
      if IsFirstPart(ix, v, q) {
        return Some(q);
      }
      todo := todo - {q};
    }
    return None;
  }

  /** The source stands for a listed variant with its first part. */
  ghost predicate FromIndex(ix: Index, ratingKey: string, s: Source) {
    Listed(ix, s.variantId, ratingKey) && exists p :: IsFirstPart(ix, s.variantId, p) && s == SourceOf(ix, s.variantId, p)
  }

  /** Every listed variant has a first part; one without makes the whole result unreadable. */
  ghost predicate Readable(ix: Index, ratingKey: string) {
    forall v | Listed(ix, v, ratingKey) :: exists p :: IsFirstPart(ix, v, p)
  }

  /** The variants of a title in the order of their media indexes, which are all different. */
  method ListedRows(ix: Index, ratingKey: string) returns (rows: seq<string>)
    requires SchemaOk(ix)
    ensures forall v :: v in rows <==> Listed(ix, v, ratingKey)
    ensures forall i, j | 0 <= i < j < |rows| :: MediaIndex(ix, rows[i]) < MediaIndex(ix, rows[j])
  {
    var pool := set v | v in ix.variants && Listed(ix, v, ratingKey);
    rows := Query(pool, (a, b) => MediaIndex(ix, a) <= MediaIndex(ix, b), |pool|);
    RowsCover(rows, pool);
    forall i, j | 0 <= i < j < |rows| ensures MediaIndex(ix, rows[i]) < MediaIndex(ix, rows[j]) {
      RowsAscend(ix, ratingKey, pool, rows, i, j);
    }
    forall v ensures v in rows <==> Listed(ix, v, ratingKey) {
      assert v in rows <==> v in pool;
    }
  }

  /** One source for each variant of the title, in the order of their media indexes; none at all if
      some variant has no first part. */
  method IndexVariants(ix: Index, ratingKey: string) returns (sources: seq<Source>)
    requires SchemaOk(ix)
    ensures SourcesOk(sources)
    ensures forall i, j | 0 <= i < j < |sources| :: sources[i].media.index < sources[j].media.index
    ensures forall s | s in sources :: FromIndex(ix, ratingKey, s)
    ensures if Readable(ix, ratingKey) then Covers(ix, ratingKey, sources) else sources == []
  {
    var rows := ListedRows(ix, ratingKey);
    sources := [];
    for i := 0 to |rows|
      invariant |sources| == i && forall j | 0 <= j < i :: RowSource(ix, rows[j], sources[j])
    {
      assert rows[i] in rows;
      var p := FirstPart(ix, rows[i]);
      if p.None? {
        assert Listed(ix, rows[i], ratingKey) && !Readable(ix, ratingKey);
        return [];
      }
      assert RowSource(ix, rows[i], SourceOf(ix, rows[i], p.value));
      sources := sources + [SourceOf(ix, rows[i], p.value)];
    }
    SourcesCover(ix, ratingKey, rows, sources);
  }

  /** On the columns: the part is the variant's part number 0, the item is of the title and on an
      enabled server, and the source is available exactly if that part has a key. */
  lemma FromIndexMeans(ix: Index, ratingKey: string, s: Source)
    ensures FromIndex(ix, ratingKey, s) <==>
              && s.variantId in ix.variants && s.media == ix.variants[s.variantId].media && (s.available <==> s.partKey != "")
              && ix.variants[s.variantId].item in ix.items
              && ix.items[ix.variants[s.variantId].item].ratingKey == ratingKey && ix.items[ix.variants[s.variantId].item].server in ix.enabled
              && exists p | p in ix.parts :: ix.parts[p] == PartRow(s.variantId, 0, s.partId, s.partKey)
  {
    if FromIndex(ix, ratingKey, s) {
      var p :| IsFirstPart(ix, s.variantId, p) && s == SourceOf(ix, s.variantId, p);
      assert ix.parts[p] == PartRow(s.variantId, 0, s.partId, s.partKey);
    }
    forall p | s.variantId in ix.variants && p in ix.parts && ix.parts[p] == PartRow(s.variantId, 0, s.partId, s.partKey)
      && s.media == ix.variants[s.variantId].media && (s.available <==> s.partKey != "")
      ensures IsFirstPart(ix, s.variantId, p) && s == SourceOf(ix, s.variantId, p)
    {
    }
  }

  /** Every listed variant is among the sources. */
  ghost predicate Covers(ix: Index, ratingKey: string, sources: seq<Source>) {
    forall v | Listed(ix, v, ratingKey) :: exists s :: s in sources && s.variantId == v
  }

  ghost predicate RowSource(ix: Index, v: string, s: Source) {
    s.variantId == v && v in ix.variants && exists p :: IsFirstPart(ix, v, p) && s == SourceOf(ix, v, p)
  }

  lemma SourcesCover(ix: Index, ratingKey: string, rows: seq<string>, sources: seq<Source>)
    requires |sources| == |rows| && forall j | 0 <= j < |rows| :: RowSource(ix, rows[j], sources[j])
    requires forall v :: v in rows <==> Listed(ix, v, ratingKey)
    requires forall i, j | 0 <= i < j < |rows| :: MediaIndex(ix, rows[i]) < MediaIndex(ix, rows[j])
    ensures SourcesOk(sources) && Readable(ix, ratingKey) && Covers(ix, ratingKey, sources)
    ensures forall i, j | 0 <= i < j < |sources| :: sources[i].media.index < sources[j].media.index
    ensures forall s | s in sources :: FromIndex(ix, ratingKey, s)
  {
    forall i, j | 0 <= i < j < |sources| ensures sources[i].media.index < sources[j].media.index {
      assert RowSource(ix, rows[i], sources[i]) && RowSource(ix, rows[j], sources[j]);
    }
    forall i | 0 <= i < |sources| ensures FromIndex(ix, ratingKey, sources[i]) && (sources[i].available <==> sources[i].partKey != "") {
      assert RowSource(ix, rows[i], sources[i]) && rows[i] in rows;
    }
    forall v | Listed(ix, v, ratingKey) ensures (exists s :: s in sources && s.variantId == v) && exists p :: IsFirstPart(ix, v, p) {
      var i :| 0 <= i < |rows| && rows[i] == v;
      assert RowSource(ix, rows[i], sources[i]) && sources[i] in sources;
    }
  }

  lemma RowsCover<T>(rows: seq<T>, pool: set<T>)
    requires Distinct(rows) && |rows| == |pool| && forall x | x in rows :: x in pool
    ensures forall x | x in pool :: x in rows
  {
    DistinctCount(rows, pool);
    var members := set x | x in rows;
    SubsetCount(members, pool);
  }

  lemma RowsAscend(ix: Index, ratingKey: string, pool: set<string>, rows: seq<string>, i: nat, j: nat)
    requires SchemaOk(ix) && i < j < |rows| && forall v | v in pool :: Listed(ix, v, ratingKey)
    requires FirstRows(pool, (a, b) => MediaIndex(ix, a) <= MediaIndex(ix, b), |pool|, rows)
    ensures MediaIndex(ix, rows[i]) < MediaIndex(ix, rows[j])
  {
    var leq := (a, b) => MediaIndex(ix, a) <= MediaIndex(ix, b);
    assert rows[i] in pool && rows[j] in pool && rows[j] !in rows[..i];
    assert leq(rows[i], rows[j]);
    if ix.variants[rows[i]].media.index == ix.variants[rows[j]].media.index {
      OneVariantPerIndex(ix, rows[i], rows[j], ratingKey);
    }
  }

  // ---- Live metadata ------------------------------------------------------------------------

  datatype LivePart = LivePart(id: string, key: string)

  /** One medium of the media server's answer; its own number is its position. */
  datatype LiveMedia = LiveMedia(
    width: Option<int>, height: Option<int>, bitrate: Option<int>, range: DynamicRange, codec: string, audio: Option<int>, parts: seq<LivePart>)

  /** The first part that has a key. */
  ghost predicate FirstWithKey(parts: seq<LivePart>, key: string, id: string) {
    if key == "" then id == "" && forall p | p in parts :: p.key == ""
    else exists i :: 0 <= i < |parts| && parts[i] == LivePart(id, key) && forall j | 0 <= j < i :: parts[j].key == ""
  }

  method PickPart(parts: seq<LivePart>) returns (key: string, id: string)
    ensures FirstWithKey(parts, key, id)
  {
    for i := 0 to |parts|
      invariant forall j | 0 <= j < i :: parts[j].key == ""
    {
      if parts[i].key != "" {
        return parts[i].key, parts[i].id;
      }
    }
    return "", "";
  }

  /** Numbers the media by position and takes the first part with a key. */
  method LiveVariants(media: seq<LiveMedia>) returns (sources: seq<Source>)
    ensures SourcesOk(sources) && |sources| == |media|
    ensures forall i | 0 <= i < |media| :: FromLive(media[i], i, sources[i])
  {
    sources := [];
    for i := 0 to |media|
      invariant |sources| == i && forall j | 0 <= j < i :: FromLive(media[j], j, sources[j])
    {
      var m := media[i];
      var key, id := PickPart(m.parts);
      sources := sources + [Source(Description(i, m.width, m.height, m.bitrate, m.range, m.codec, m.audio), key != "", key, id, "")];
    }
  }

  ghost predicate FromLive(m: LiveMedia, i: nat, s: Source) {
    && s.media == Description(i, m.width, m.height, m.bitrate, m.range, m.codec, m.audio)
    && FirstWithKey(m.parts, s.partKey, s.partId) && s.variantId == "" && (s.available <==> s.partKey != "")
  }

  /** The index if it lists the title readably, else the live metadata. ix is None if it cannot be
      read, and live is None if the media server's answer cannot be used. */
  method Variants(ix: Option<Index>, ratingKey: string, live: Option<seq<LiveMedia>>) returns (sources: seq<Source>, indexed: bool)
    requires ix.Some? ==> SchemaOk(ix.value)
    ensures SourcesOk(sources)
    ensures indexed <==> ix.Some? && ratingKey != "" && Readable(ix.value, ratingKey) && exists v :: Listed(ix.value, v, ratingKey)
    ensures indexed ==> Covers(ix.value, ratingKey, sources) && forall s | s in sources :: FromIndex(ix.value, ratingKey, s)
    ensures !indexed ==> if live.None? then sources == [] else |sources| == |live.value| && forall i | 0 <= i < |sources| :: FromLive(live.value[i], i, sources[i])
  {
    sources, indexed := [], false;
    if ix.Some? && ratingKey != "" {
      sources := IndexVariants(ix.value, ratingKey);
      indexed := sources != [];
      if indexed {
        assert sources[0] in sources && FromIndex(ix.value, ratingKey, sources[0]);
        return;
      }
    }
    if live.Some? {
      sources := LiveVariants(live.value);
    }
  }

  // ---- Parts --------------------------------------------------------------------------------

  /** A part of the owner index: the source it belongs to and the title. */
  datatype Part = Part(source: Source, ratingKey: string)

  /** Looks a part up by the media server's id. */
  method LookupPart(ix: Index, plexId: string) returns (part: Option<Part>)
    requires SchemaOk(ix)
    ensures part.Some? ==> IsPart(ix, plexId, part.value)
    ensures part.None? ==> plexId == "" || forall p | p in ix.parts && ix.parts[p].plexId == plexId :: ix.items[ix.variants[ix.parts[p].variant].item].server !in ix.enabled
  {
    if plexId == "" {
      return None;
    }
    var todo := ix.parts.Keys;
    while todo != {}
      invariant todo <= ix.parts.Keys
      invariant forall q | q in ix.parts && q !in todo && ix.parts[q].plexId == plexId :: ix.items[ix.variants[ix.parts[q].variant].item].server !in ix.enabled
      decreases |todo|
    {
      var q :| q in todo;
      var v := ix.parts[q].variant;
      var item := ix.items[ix.variants[v].item];
      if ix.parts[q].plexId == plexId && item.server in ix.enabled {
        return Some(Part(SourceOf(ix, v, q), item.ratingKey));
      }
      todo := todo - {q};
    }
    return None;
  }

  ghost predicate IsPart(ix: Index, plexId: string, part: Part) {
    exists p :: p in ix.parts && ix.parts[p].plexId == plexId && Listed(ix, ix.parts[p].variant, part.ratingKey)
                && part.source == SourceOf(ix, ix.parts[p].variant, p)
  }

  /** All parts of a title under one media index are described alike. */
  lemma PartsAreDescribedAlike(ix: Index, a: string, b: string, first: Part, second: Part)
    requires SchemaOk(ix) && IsPart(ix, a, first) && IsPart(ix, b, second)
    requires first.ratingKey == second.ratingKey && first.source.media.index == second.source.media.index
    ensures first.source.media == second.source.media && first.source.variantId == second.source.variantId
  {
    var p :| p in ix.parts && ix.parts[p].plexId == a && Listed(ix, ix.parts[p].variant, first.ratingKey) && first.source == SourceOf(ix, ix.parts[p].variant, p);
    var q :| q in ix.parts && ix.parts[q].plexId == b && Listed(ix, ix.parts[q].variant, second.ratingKey) && second.source == SourceOf(ix, ix.parts[q].variant, q);
    OneVariantPerIndex(ix, ix.parts[p].variant, ix.parts[q].variant, first.ratingKey);
  }

  /** A part of a listed variant is described like the source negotiated from the same index. */
  lemma PartMatchesSource(ix: Index, a: string, part: Part, s: Source)
    requires SchemaOk(ix) && IsPart(ix, a, part) && FromIndex(ix, part.ratingKey, s)
    requires part.source.variantId == s.variantId || part.source.media.index == s.media.index
    ensures part.source.media == s.media && part.source.variantId == s.variantId
  {
    var p :| p in ix.parts && ix.parts[p].plexId == a && Listed(ix, ix.parts[p].variant, part.ratingKey) && part.source == SourceOf(ix, ix.parts[p].variant, p);
    if part.source.media.index == s.media.index {
      OneVariantPerIndex(ix, ix.parts[p].variant, s.variantId, part.ratingKey);
    }
  }
}
