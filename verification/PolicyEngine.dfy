/** Layered media policy: merging levels field by field, filtering variants, ranking the rest. */
module PolicyEngine {
  import opened Basics

  datatype TriState = Inherit | Allow | Deny

  datatype Level = Default | Global | User | Device

  datatype Field =
    | MaxSourceWidth | MaxSourceHeight | MaxSourceBitrate | MaxStreamingBitrate
    | Allow4K | AllowHDR | AllowDolbyVision | AllowTranscode | PreferDirectPlay
    | MaxAudioChannels | UnknownDynamicRange | RoutingMode

  /** routing is None when it is unset or says inherit. */
  datatype Policy = Policy(
    maxWidth: Option<int>, maxHeight: Option<int>, maxBitrate: Option<int>, maxStreaming: Option<int>,
    allow4K: TriState, allowHDR: TriState, allowDV: TriState, allowTranscode: TriState, preferDirect: TriState,
    maxAudio: Option<int>, unknownDR: TriState, routing: Option<string>,
    provenance: map<Field, Level>)

  /** A level that configures nothing. */
  const EMPTY := Policy(None, None, None, None, Inherit, Inherit, Inherit, Inherit, Inherit, None, Inherit, None, map[])

  const FIELDS: set<Field> := {
    MaxSourceWidth, MaxSourceHeight, MaxSourceBitrate, MaxStreamingBitrate, Allow4K, AllowHDR, AllowDolbyVision,
    AllowTranscode, PreferDirectPlay, MaxAudioChannels, UnknownDynamicRange, RoutingMode }

  const DEFAULTS := Policy(None, None, None, None, Allow, Allow, Allow, Allow, Allow, None, Allow, Some("automatic"),
    map f | f in FIELDS :: Default)

  // ---- Merging --------------------------------------------------------------------------------

  predicate Configured(p: Policy, f: Field) {
    match f
    case MaxSourceWidth => p.maxWidth.Some?
    case MaxSourceHeight => p.maxHeight.Some?
    case MaxSourceBitrate => p.maxBitrate.Some?
    case MaxStreamingBitrate => p.maxStreaming.Some?
    case Allow4K => p.allow4K != Inherit
    case AllowHDR => p.allowHDR != Inherit
    case AllowDolbyVision => p.allowDV != Inherit
    case AllowTranscode => p.allowTranscode != Inherit
    case PreferDirectPlay => p.preferDirect != Inherit
    case MaxAudioChannels => p.maxAudio.Some?
    case UnknownDynamicRange => p.unknownDR != Inherit
    case RoutingMode => p.routing.Some?
  }

  function Or<T>(specific: Option<T>, base: Option<T>): Option<T> {
    if specific.Some? then specific else base
  }

  function OrTri(specific: TriState, base: TriState): TriState {
    if specific != Inherit then specific else base
  }

  /** Overlays the configured fields of a more specific level and stamps them with that level. */
  function MergeAs(base: Policy, specific: Policy, scope: Level): Policy {
    Policy(
      Or(specific.maxWidth, base.maxWidth), Or(specific.maxHeight, base.maxHeight),
      Or(specific.maxBitrate, base.maxBitrate), Or(specific.maxStreaming, base.maxStreaming),
      OrTri(specific.allow4K, base.allow4K), OrTri(specific.allowHDR, base.allowHDR), OrTri(specific.allowDV, base.allowDV),
      OrTri(specific.allowTranscode, base.allowTranscode), OrTri(specific.preferDirect, base.preferDirect),
      Or(specific.maxAudio, base.maxAudio), OrTri(specific.unknownDR, base.unknownDR), Or(specific.routing, base.routing),
      base.provenance + map f | f in FIELDS && Configured(specific, f) :: scope)
  }

  /** defaults < global < user < device */
  function Effective(global: Policy, user: Policy, device: Policy): Policy {
    MergeAs(MergeAs(MergeAs(DEFAULTS, global, Global), user, User), device, Device)
  }

  datatype Value = Number(n: Option<int>) | State(t: TriState) | Mode(m: Option<string>)

  function Get(p: Policy, f: Field): Value {
    match f
    case MaxSourceWidth => Number(p.maxWidth)
    case MaxSourceHeight => Number(p.maxHeight)
    case MaxSourceBitrate => Number(p.maxBitrate)
    case MaxStreamingBitrate => Number(p.maxStreaming)
    case Allow4K => State(p.allow4K)
    case AllowHDR => State(p.allowHDR)
    case AllowDolbyVision => State(p.allowDV)
    case AllowTranscode => State(p.allowTranscode)
    case PreferDirectPlay => State(p.preferDirect)
    case MaxAudioChannels => Number(p.maxAudio)
    case UnknownDynamicRange => State(p.unknownDR)
    case RoutingMode => Mode(p.routing)
  }

  lemma MergedField(base: Policy, specific: Policy, scope: Level, f: Field)
    ensures
      var out := MergeAs(base, specific, scope);
      if Configured(specific, f) then Get(out, f) == Get(specific, f) && f in out.provenance && out.provenance[f] == scope
      else Get(out, f) == Get(base, f) && (f in out.provenance <==> f in base.provenance) && (f in base.provenance ==> out.provenance[f] == base.provenance[f])
  {
    assert f in FIELDS;
  }

  /** The most specific level that configures a field. */
  function Winner(global: Policy, user: Policy, device: Policy, f: Field): Level {
    if Configured(device, f) then Device else if Configured(user, f) then User else if Configured(global, f) then Global else Default
  }

  function AtLevel(global: Policy, user: Policy, device: Policy, level: Level): Policy {
    match level
    case Default => DEFAULTS
    case Global => global
    case User => user
    case Device => device
  }

  /** Every effective field has the value of the most specific level that configures it, and is
      stamped with that level. */
  lemma EffectiveField(global: Policy, user: Policy, device: Policy, f: Field)
    ensures
      var out, winner := Effective(global, user, device), Winner(global, user, device, f);
      Get(out, f) == Get(AtLevel(global, user, device, winner), f) && f in out.provenance && out.provenance[f] == winner
  {
    hide MergeAs, Get, Configured;
    var g := MergeAs(DEFAULTS, global, Global);
    var u := MergeAs(g, user, User);
    assert f in FIELDS;
    MergedField(DEFAULTS, global, Global, f);
    MergedField(g, user, User, f);
    MergedField(u, device, Device, f);
  }

  lemma EmptyLevel(base: Policy, scope: Level)
    ensures MergeAs(base, EMPTY, scope) == base
  {
    assert base.provenance + (map f | f in FIELDS && Configured(EMPTY, f) :: scope) == base.provenance;
  }

  // ---- Loading --------------------------------------------------------------------------------

  /** Reading one level: no row, a row, or an error. */
  datatype Loaded = Absent | Found(p: Policy) | Failed

  function OrEmpty(l: Loaded): Policy {
    if l.Found? then l.p else EMPTY
  }

  /** Folds the applicable levels; a level without an identity does not apply, and an error on an
      applicable level fails the whole load. */
  method LoadEffective(global: Loaded, user: Option<Loaded>, device: Option<Loaded>) returns (r: Option<(Policy, Level)>)
    ensures r.None? <==> global.Failed? || user == Some(Failed) || device == Some(Failed)
    ensures r.Some? ==> r.value.0 == Effective(OrEmpty(global), if user.Some? then OrEmpty(user.value) else EMPTY, if device.Some? then OrEmpty(device.value) else EMPTY)
    ensures r.Some? ==> r.value.1 == if device.Some? && device.value.Found? then Device else if user.Some? && user.value.Found? then User else Global
  {
    var eff, scope := DEFAULTS, Global;
    var levels := [(Some(global), Global), (user, User), (device, Device)];
    ghost var g := OrEmpty(global);
    ghost var u := if user.Some? then OrEmpty(user.value) else EMPTY;
    ghost var d := if device.Some? then OrEmpty(device.value) else EMPTY;
    ghost var after := [DEFAULTS, MergeAs(DEFAULTS, g, Global), MergeAs(MergeAs(DEFAULTS, g, Global), u, User), Effective(g, u, d)];
    for i := 0 to 3
      invariant eff == after[i]
      invariant forall j | 0 <= j < i :: levels[j].0 != Some(Failed)
      invariant scope == if i == 3 && levels[2].0.Some? && levels[2].0.value.Found? then Device
                         else if i >= 2 && levels[1].0.Some? && levels[1].0.value.Found? then User else Global
    {
      EmptyLevel(eff, levels[i].1);
      if levels[i].0.Some? {
        if levels[i].0.value.Failed? {
          return None;
        }
        if levels[i].0.value.Found? {
          eff, scope := MergeAs(eff, levels[i].0.value.p, levels[i].1), levels[i].1;
        }
      }
    }
    assert levels[0].0 != Some(Failed) && levels[1].0 != Some(Failed) && levels[2].0 != Some(Failed);
    r := Some((eff, scope));
  }

  // ---- Eligibility ----------------------------------------------------------------------------

  datatype Playability = DirectPlay | DirectStream | UnknownPlayability | Transcode

  datatype DynamicRange = SDR | HDR10 | HDR10Plus | HLG | DolbyVision | HDROther | UnknownRange

  datatype Variant = Variant(
    index: int, width: Option<int>, height: Option<int>, bitrate: Option<int>, range: DynamicRange,
    codec: string, audio: Option<int>, playability: Playability, available: bool)

  datatype Reason = PartUnavailable | Source4KDenied | SourceResolution | UnknownRangeDenied | DolbyVisionDenied | HDRDenied | BitrateCeiling

  datatype Rejection = Rejection(index: int, scope: Level, reason: Reason)

  predicate Above(v: Option<int>, cap: Option<int>) {
    v.Some? && cap.Some? && v.value > cap.value
  }

  predicate Is4K(v: Variant) {
    Above(v.width, Some(1920)) || Above(v.height, Some(1080))
  }

  predicate OverResolution(p: Policy, v: Variant) {
    Above(v.width, p.maxWidth) || Above(v.height, p.maxHeight)
  }

  predicate DeniesRange(p: Policy, v: Variant) {
    match v.range
    case DolbyVision => p.allowDV == Deny
    case HDR10 => p.allowHDR == Deny
    case HDR10Plus => p.allowHDR == Deny
    case HLG => p.allowHDR == Deny
    case HDROther => p.allowHDR == Deny
    case UnknownRange => p.unknownDR == Deny
    case SDR => false
  }

  /** A variant is eligible if no field of the policy forbids it. */
  predicate Permitted(p: Policy, v: Variant) {
    v.available && !(Is4K(v) && p.allow4K == Deny) && !OverResolution(p, v) && !DeniesRange(p, v) && !Above(v.bitrate, p.maxBitrate)
  }

  /** The first reason against a variant, and the field it comes from. */
  function Check(p: Policy, v: Variant): Option<(Reason, Option<Field>)> {
    if !v.available then Some((PartUnavailable, None))
    else if Is4K(v) && p.allow4K == Deny then Some((Source4KDenied, Some(Allow4K)))
    else if OverResolution(p, v) then Some((SourceResolution, Some(if Above(v.height, p.maxHeight) then MaxSourceHeight else MaxSourceWidth)))
    else if DeniesRange(p, v) then
      if v.range.UnknownRange? then Some((UnknownRangeDenied, Some(UnknownDynamicRange)))
      else if v.range.DolbyVision? && p.allowDV == Deny then Some((DolbyVisionDenied, Some(AllowDolbyVision)))
      else Some((HDRDenied, Some(AllowHDR)))
    else if Above(v.bitrate, p.maxBitrate) then Some((BitrateCeiling, Some(MaxSourceBitrate)))
    else None
  }

  lemma CheckIsExact(p: Policy, v: Variant)
    ensures Check(p, v).None? <==> Permitted(p, v)
  {
  }

  /** What the fields demand, on the numbers. */
  predicate Meets(p: Policy, width: Option<int>, height: Option<int>, bitrate: Option<int>, range: DynamicRange) {
    && (p.allow4K == Deny ==> (width.Some? ==> width.value <= 1920) && (height.Some? ==> height.value <= 1080))
    && (p.maxWidth.Some? && width.Some? ==> width.value <= p.maxWidth.value)
    && (p.maxHeight.Some? && height.Some? ==> height.value <= p.maxHeight.value)
    && (p.maxBitrate.Some? && bitrate.Some? ==> bitrate.value <= p.maxBitrate.value)
    && (p.allowDV == Deny ==> range != DolbyVision)
    && (p.allowHDR == Deny ==> range !in {HDR10, HDR10Plus, HLG, HDROther})
    && (p.unknownDR == Deny ==> range != UnknownRange)
  }

  lemma PermittedMeans(p: Policy, v: Variant)
    ensures Permitted(p, v) <==> v.available && Meets(p, v.width, v.height, v.bitrate, v.range)
  {
  }

  /** Permitted is available and forbidden by no field. */
  lemma PermittedExactly(p: Policy, v: Variant)
    ensures Permitted(p, v) <==> v.available && forall f :: !Violates(p, v, f)
  {
    if !Permitted(p, v) && v.available {
      CheckIsExact(p, v);
      CheckNamesViolation(p, v);
    }
    if f :| Violates(p, v, f) {
      ViolationForbids(p, v, f);
    }
  }

  lemma ViolationForbids(p: Policy, v: Variant, f: Field)
    requires Violates(p, v, f)
    ensures !Permitted(p, v)
  {
  }

  /** The field alone forbids the variant. */
  predicate Violates(p: Policy, v: Variant, f: Field) {
    match f
    case Allow4K => Is4K(v) && p.allow4K == Deny
    case MaxSourceWidth => Above(v.width, p.maxWidth)
    case MaxSourceHeight => Above(v.height, p.maxHeight)
    case UnknownDynamicRange => v.range.UnknownRange? && p.unknownDR == Deny
    case AllowDolbyVision => v.range.DolbyVision? && p.allowDV == Deny
    case AllowHDR => (v.range.HDR10? || v.range.HDR10Plus? || v.range.HLG? || v.range.HDROther?) && p.allowHDR == Deny
    case MaxSourceBitrate => Above(v.bitrate, p.maxBitrate)
    case _ => false
  }

  function ScopeOf(p: Policy, fallback: Level, f: Option<Field>): Level {
    if f.Some? && f.value in p.provenance then p.provenance[f.value] else fallback
  }

  /** The field behind each reason. */
  predicate FieldOf(r: Reason, f: Field) {
    match r
    case PartUnavailable => false
    case Source4KDenied => f == Allow4K
    case SourceResolution => f == MaxSourceWidth || f == MaxSourceHeight
    case UnknownRangeDenied => f == UnknownDynamicRange
    case DolbyVisionDenied => f == AllowDolbyVision
    case HDRDenied => f == AllowHDR
    case BitrateCeiling => f == MaxSourceBitrate
  }

  /** The reason given is a true one, and it is the one of the field named. */
  lemma CheckNamesViolation(p: Policy, v: Variant)
    requires Check(p, v).Some?
    ensures Check(p, v).value.0.PartUnavailable? <==> !v.available
    ensures Check(p, v).value.1.None? <==> !v.available
    ensures v.available ==> Violates(p, v, Check(p, v).value.1.value) && FieldOf(Check(p, v).value.0, Check(p, v).value.1.value)
  {
  }

  lemma DefaultsForbidNothing(p: Policy, v: Variant, f: Field)
    requires Violates(p, v, f)
    ensures Get(p, f) != Get(DEFAULTS, f)
  {
  }

  /** A rejection by a field names the level that set that field, which is never the defaults. */
  lemma BlamesTheRightLevel(global: Policy, user: Policy, device: Policy, fallback: Level, v: Variant)
    requires var c := Check(Effective(global, user, device), v); c.Some? && c.value.1.Some?
    ensures
      var p := Effective(global, user, device);
      var f := Check(p, v).value.1.value;
      && Violates(p, v, f) && ScopeOf(p, fallback, Some(f)) == Winner(global, user, device, f) != Default
      && Get(p, f) == Get(AtLevel(global, user, device, Winner(global, user, device, f)), f)
  {
    var p := Effective(global, user, device);
    var f := Check(p, v).value.1.value;
    EffectiveField(global, user, device, f);
    CheckNamesViolation(p, v);
    DefaultsForbidNothing(p, v, f);
  }

  /** q forbids at least what p forbids, field by field. */
  predicate Stricter(q: Policy, p: Policy) {
    && Tighter(q.maxWidth, p.maxWidth) && Tighter(q.maxHeight, p.maxHeight) && Tighter(q.maxBitrate, p.maxBitrate)
    && (p.allow4K == Deny ==> q.allow4K == Deny) && (p.allowHDR == Deny ==> q.allowHDR == Deny)
    && (p.allowDV == Deny ==> q.allowDV == Deny) && (p.unknownDR == Deny ==> q.unknownDR == Deny)
  }

  predicate Tighter(q: Option<int>, p: Option<int>) {
    p.Some? ==> q.Some? && q.value <= p.value
  }

  lemma EligibilityIsAntitone(q: Policy, p: Policy, v: Variant)
    requires Stricter(q, p) && Permitted(q, v)
    ensures Permitted(p, v)
  {
  }

  // ---- Ranking --------------------------------------------------------------------------------

  function OrZero(n: Option<int>): int {
    if n.Some? then n.value else 0
  }

  function Pixels(v: Variant): int {
    OrZero(v.width) * OrZero(v.height)
  }

  function MaxPixels(p: Policy): int {
    var w, h := OrZero(p.maxWidth), OrZero(p.maxHeight);
    if w > 0 && h > 0 then w * h else 0
  }

  /** Truncates toward zero. */
  function Thousands(n: int): int {
    if n >= 0 then n / 1000 else -(-n / 1000)
  }

  function Lower(c: char): char {
    if 'A' <= c <= 'Z' then c - 'A' + 'a' else c
  }

  function ToLower(s: string): string {
    seq(|s|, i requires 0 <= i < |s| => Lower(s[i]))
  }

  /** codec is the name without surrounding blanks. */
  function CodecPenalty(codec: string): int {
    var c := ToLower(codec);
    if c in {"h264", "avc", "mpeg4"} then 0 else if c in {"hevc", "h265"} then 1 else if c in {"vp9", "av1"} then 2 else 3
  }

  function RangeRank(r: DynamicRange): int {
    match r
    case DolbyVision => -4
    case HDR10Plus => -3
    case HDR10 => -2
    case HLG => -2
    case HDROther => -1
    case UnknownRange => -1
    case SDR => 0
  }

  const KEY_LENGTH := 7

  type Key = k: seq<int> | |k| == KEY_LENGTH witness [0, 0, 0, 0, 0, 0, 0]

  /** Lower wins. */
  function RankKey(p: Policy, v: Variant): Key {
    [if v.playability.DirectPlay? then 0 else if v.playability.Transcode? then 2 else 1,
     MaxPixels(p) - Pixels(v),
     RangeRank(v.range),
     CodecPenalty(v.codec),
     if Above(v.audio, p.maxAudio) then v.audio.value - p.maxAudio.value else 0,
     if v.bitrate.Some? then Thousands(v.bitrate.value) else 0,
     v.index]
  }

  /** The keys first differ at i, and there a is smaller. */
  predicate LessAt(a: Key, b: Key, i: int) {
    0 <= i < KEY_LENGTH && a[i] < b[i] && forall j | 0 <= j < i :: a[j] == b[j]
  }

  predicate Less(a: Key, b: Key) {
    exists i | 0 <= i < KEY_LENGTH :: LessAt(a, b, i)
  }

  method LessKey(a: Key, b: Key) returns (less: bool)
    ensures less == Less(a, b)
  {
    for i := 0 to KEY_LENGTH
      invariant forall j | 0 <= j < i :: a[j] == b[j]
    {
      if a[i] != b[i] {
        assert a[i] < b[i] ==> LessAt(a, b, i);
        return a[i] < b[i];
      }
    }
    return false;
  }

  lemma LessTotal(a: Key, b: Key)
    ensures a == b || Less(a, b) || Less(b, a)
  {
    for i := 0 to KEY_LENGTH
      invariant forall j | 0 <= j < i :: a[j] == b[j]
    {
      if a[i] != b[i] {
        assert LessAt(a, b, i) || LessAt(b, a, i);
        return;
      }
    }
    assert a == b;
  }

  lemma LessTransitive(a: Key, b: Key, c: Key)
    requires Less(a, b) && Less(b, c)
    ensures Less(a, c) && !Less(b, a)
  {
    var i :| 0 <= i < KEY_LENGTH && LessAt(a, b, i);
    var j :| 0 <= j < KEY_LENGTH && LessAt(b, c, j);
    assert LessAt(a, c, Min(i, j));
  }

  /** The ranking of two variants does not depend on the resolution caps. */
  lemma RankingIgnoresCaps(p: Policy, q: Policy, v: Variant, w: Variant)
    requires p.maxAudio == q.maxAudio
    ensures Preferred(p, v, w) <==> Preferred(q, v, w)
  {
    forall c ensures Better(p, c, v, w) == Better(q, c, v, w) && Better(p, c, w, v) == Better(q, c, w, v) {
      SameBetter(p, q, c, v, w);
      SameBetter(p, q, c, w, v);
    }
    hide Better;
    forall i: nat ensures PreferredAt(p, v, w, i) <==> PreferredAt(q, v, w, i) {
    }
  }

  /** What is better does not depend on the policy but for its audio limit. */
  lemma SameBetter(p: Policy, q: Policy, c: Criterion, v: Variant, w: Variant)
    requires p.maxAudio == q.maxAudio
    ensures Better(p, c, v, w) == Better(q, c, v, w)
  {
    assert forall n :: Over(p, w, n) == Over(q, w, n) && Over(p, v, n) == Over(q, v, n);
  }

  // ---- What the ranking prefers ---------------------------------------------------------------

  datatype Criterion = Playback | Resolution | Range | Codec | Audio | Bitrate | MediaIndex

  /** A later criterion only decides between variants that the earlier ones leave alike. */
  const CRITERIA: seq<Criterion> := [Playback, Resolution, Range, Codec, Audio, Bitrate, MediaIndex]

  /** Richer dynamic ranges first. */
  const RANGES: seq<set<DynamicRange>> := [{DolbyVision}, {HDR10Plus}, {HDR10, HLG}, {HDROther, UnknownRange}, {SDR}]

  /** More compatible codecs first; any other comes last. */
  const CODECS: seq<set<string>> := [{"h264", "avc", "mpeg4"}, {"hevc", "h265"}, {"vp9", "av1"}]

  predicate SameLetter(c: char, lower: char) {
    c == lower || ('A' <= c <= 'Z' && c as int + 32 == lower as int)
  }

  /** The codec's name, in any case. */
  predicate Named(codec: string, name: string) {
    |codec| == |name| && forall i | 0 <= i < |name| :: SameLetter(codec[i], name[i])
  }

  ghost predicate InClass(codec: string, i: nat) {
    i < |CODECS| && exists name :: name in CODECS[i] && Named(codec, name)
  }

  /** At least n channels above the limit. */
  ghost predicate Over(p: Policy, v: Variant, n: int) {
    n > 0 && p.maxAudio.Some? && v.audio.Some? && v.audio.value >= p.maxAudio.value + n
  }

  /** At least m whole Mbit/s, counted toward zero; an unknown bitrate counts as none. */
  ghost predicate Fills(v: Variant, m: int) {
    var kbps := if v.bitrate.Some? then v.bitrate.value else 0;
    if m > 0 then kbps >= 1000 * m else kbps > 1000 * (m - 1)
  }

  /** v is better than w in this one respect. */
  ghost predicate Better(p: Policy, c: Criterion, v: Variant, w: Variant) {
    match c
    case Playback => (v.playability.DirectPlay? && !w.playability.DirectPlay?) || (!v.playability.Transcode? && w.playability.Transcode?)
    case Resolution =>
      (if v.width.Some? then v.width.value else 0) * (if v.height.Some? then v.height.value else 0) >
      (if w.width.Some? then w.width.value else 0) * (if w.height.Some? then w.height.value else 0)
    case Range => exists i, j :: 0 <= i < j < |RANGES| && v.range in RANGES[i] && w.range in RANGES[j]
    case Codec => exists i: nat :: InClass(v.codec, i) && forall j: nat | j <= i :: !InClass(w.codec, j)
    case Audio => exists n :: Over(p, w, n) && !Over(p, v, n)
    case Bitrate => exists m :: Fills(w, m) && !Fills(v, m)
    case MediaIndex => v.index < w.index
  }

  ghost predicate Alike(p: Policy, c: Criterion, v: Variant, w: Variant) {
    !Better(p, c, v, w) && !Better(p, c, w, v)
  }

  ghost predicate PreferredAt(p: Policy, v: Variant, w: Variant, i: nat) {
    i < |CRITERIA| && Better(p, CRITERIA[i], v, w) && forall j | 0 <= j < i :: Alike(p, CRITERIA[j], v, w)
  }

  /** The first criterion that tells them apart is for v. */
  ghost predicate Preferred(p: Policy, v: Variant, w: Variant) {
    exists i: nat :: PreferredAt(p, v, w, i)
  }

  lemma RangeComponent(v: DynamicRange, w: DynamicRange)
    ensures RangeRank(v) < RangeRank(w) <==> exists i, j :: 0 <= i < j < |RANGES| && v in RANGES[i] && w in RANGES[j]
  {
    RangePlace(v);
    RangePlace(w);
    var a, b := RangeRank(v) + 4, RangeRank(w) + 4;
    if RangeRank(v) < RangeRank(w) {
      var i, j := Min(a, 4), Min(b, 4);
      assert v in RANGES[i] && w in RANGES[j];
    }
  }

  /** The class of a range is its rank. */
  lemma RangePlace(r: DynamicRange)
    ensures forall i | 0 <= i < |RANGES| :: r in RANGES[i] <==> i == RangeRank(r) + 4
  {
    assert RANGES[0] == {DolbyVision} && RANGES[1] == {HDR10Plus} && RANGES[2] == {HDR10, HLG};
    assert RANGES[3] == {HDROther, UnknownRange} && RANGES[4] == {SDR};
  }

  lemma LowerMeans(codec: string, name: string)
    requires forall i | 0 <= i < |name| :: !('A' <= name[i] <= 'Z')
    ensures ToLower(codec) == name <==> Named(codec, name)
  {
    if Named(codec, name) {
      forall i | 0 <= i < |name| ensures ToLower(codec)[i] == name[i] {
        assert SameLetter(codec[i], name[i]);
      }
    }
    if ToLower(codec) == name {
      forall i | 0 <= i < |name| ensures SameLetter(codec[i], name[i]) {
        assert ToLower(codec)[i] == name[i];
      }
    }
  }

  /** The class of a codec is its penalty. */
  lemma CodecPlace(codec: string)
    ensures 0 <= CodecPenalty(codec) <= 3 && forall i: nat :: InClass(codec, i) <==> i < |CODECS| && i == CodecPenalty(codec)
  {
    LowerMeans(codec, "h264");
    LowerMeans(codec, "avc");
    LowerMeans(codec, "mpeg4");
    LowerMeans(codec, "hevc");
    LowerMeans(codec, "h265");
    LowerMeans(codec, "vp9");
    LowerMeans(codec, "av1");
    assert CODECS[0] == {"h264", "avc", "mpeg4"} && CODECS[1] == {"hevc", "h265"} && CODECS[2] == {"vp9", "av1"};
  }

  lemma CodecComponent(v: string, w: string)
    ensures CodecPenalty(v) < CodecPenalty(w) <==>
            exists i: nat :: InClass(v, i) && forall j: nat | j <= i :: !InClass(w, j)
  {
    hide CodecPenalty, InClass;
    CodecPlace(v);
    CodecPlace(w);
    if CodecPenalty(v) < CodecPenalty(w) {
      assert InClass(v, CodecPenalty(v));
    } else if CodecPenalty(w) < |CODECS| {
      assert InClass(w, CodecPenalty(w));
    }
  }

  lemma AudioComponent(p: Policy, v: Variant, w: Variant)
    ensures RankKey(p, v)[4] < RankKey(p, w)[4] <==> exists n :: Over(p, w, n) && !Over(p, v, n)
  {
    var a, b := RankKey(p, v)[4], RankKey(p, w)[4];
    assert forall n :: Over(p, v, n) <==> 0 < n <= a;
    assert forall n :: Over(p, w, n) <==> 0 < n <= b;
    if a < b {
      assert Over(p, w, b) && !Over(p, v, b);
    }
  }

  lemma BitrateComponent(p: Policy, v: Variant, w: Variant)
    ensures RankKey(p, v)[5] < RankKey(p, w)[5] <==> exists m :: Fills(w, m) && !Fills(v, m)
  {
    var a, b := RankKey(p, v)[5], RankKey(p, w)[5];
    forall m ensures Fills(v, m) <==> m <= a {
      ThousandsMeans(if v.bitrate.Some? then v.bitrate.value else 0, m);
    }
    forall m ensures Fills(w, m) <==> m <= b {
      ThousandsMeans(if w.bitrate.Some? then w.bitrate.value else 0, m);
    }
    if a < b {
      assert Fills(w, b) && !Fills(v, b);
    }
  }

  lemma ThousandsMeans(kbps: int, m: int)
    ensures m <= Thousands(kbps) <==> if m > 0 then kbps >= 1000 * m else kbps > 1000 * (m - 1)
  {
  }

  /** Each component of the key is smaller exactly for the variant that is better in that respect. */
  lemma KeyComponent(p: Policy, v: Variant, w: Variant, i: nat)
    requires i < KEY_LENGTH
    ensures RankKey(p, v)[i] < RankKey(p, w)[i] <==> Better(p, CRITERIA[i], v, w)
  {
    if i == 2 {
      RangeComponent(v.range, w.range);
    } else if i == 3 {
      CodecComponent(v.codec, w.codec);
    } else if i == 4 {
      AudioComponent(p, v, w);
    } else if i == 5 {
      BitrateComponent(p, v, w);
    }
  }

  /** The key compares as the criteria prefer. */
  lemma KeyPrefers(p: Policy, v: Variant, w: Variant)
    ensures Less(RankKey(p, v), RankKey(p, w)) <==> Preferred(p, v, w)
  {
    hide RankKey, Better;
    forall i: nat | i < KEY_LENGTH
      ensures RankKey(p, v)[i] < RankKey(p, w)[i] <==> Better(p, CRITERIA[i], v, w)
      ensures RankKey(p, w)[i] < RankKey(p, v)[i] <==> Better(p, CRITERIA[i], w, v)
    {
      KeyComponent(p, v, w, i);
      KeyComponent(p, w, v, i);
    }
    forall i: nat | i < KEY_LENGTH ensures LessAt(RankKey(p, v), RankKey(p, w), i) <==> PreferredAt(p, v, w, i) {
    }
    if i: nat :| PreferredAt(p, v, w, i) {
      assert LessAt(RankKey(p, v), RankKey(p, w), i);
    }
  }

  // ---- Selection ------------------------------------------------------------------------------

  /** A permitted variant to which no other permitted one is preferred. */
  ghost predicate IsBest(p: Policy, variants: seq<Variant>, v: Variant) {
    && v in variants && Permitted(p, v)
    && forall w | w in variants && Permitted(p, w) :: !Preferred(p, w, v)
  }

  predicate DistinctIndexes(variants: seq<Variant>) {
    forall i, j | 0 <= i < j < |variants| :: variants[i].index != variants[j].index
  }

  lemma BestIsUnique(p: Policy, variants: seq<Variant>, v: Variant, w: Variant)
    requires DistinctIndexes(variants) && IsBest(p, variants, v) && IsBest(p, variants, w)
    ensures v == w
  {
    KeyPrefers(p, v, w);
    KeyPrefers(p, w, v);
    LessTotal(RankKey(p, v), RankKey(p, w));
    assert RankKey(p, v)[6] == v.index && RankKey(p, w)[6] == w.index;
  }

  /** With distinct media indexes the selection does not depend on the order of the variants. */
  lemma OrderIsIrrelevant(p: Policy, variants: seq<Variant>, reordered: seq<Variant>, v: Variant, w: Variant)
    requires multiset(variants) == multiset(reordered) && DistinctIndexes(variants)
    requires IsBest(p, variants, v) && IsBest(p, reordered, w)
    ensures v == w
  {
    forall x ensures x in variants <==> x in reordered {
      assert x in variants <==> x in multiset(variants);
      assert x in reordered <==> x in multiset(reordered);
    }
    BestIsUnique(p, variants, v, w);
  }

  /** A stricter policy with the same audio limit keeps the selection if it is still eligible. */
  lemma StricterKeepsSelection(p: Policy, q: Policy, variants: seq<Variant>, v: Variant)
    requires Stricter(q, p) && p.maxAudio == q.maxAudio && IsBest(p, variants, v) && Permitted(q, v)
    ensures IsBest(q, variants, v)
  {
    forall w | w in variants && Permitted(q, w) ensures !Preferred(q, w, v) {
      EligibilityIsAntitone(q, p, w);
      RankingIgnoresCaps(p, q, w, v);
    }
  }

  function EligibleOf(p: Policy, variants: seq<Variant>): seq<Variant> {
    if variants == [] then [] else
      var n := |variants| - 1;
      EligibleOf(p, variants[..n]) + if Permitted(p, variants[n]) then [variants[n]] else []
  }

  function RejectedOf(p: Policy, variants: seq<Variant>): seq<Variant> {
    if variants == [] then [] else
      var n := |variants| - 1;
      RejectedOf(p, variants[..n]) + if Permitted(p, variants[n]) then [] else [variants[n]]
  }

  /** Every variant is either eligible or rejected, as often as it occurs. */
  lemma {:induction false} Partition(p: Policy, variants: seq<Variant>)
    ensures multiset(EligibleOf(p, variants)) + multiset(RejectedOf(p, variants)) == multiset(variants)
    ensures forall v | v in EligibleOf(p, variants) :: v in variants && Permitted(p, v)
    ensures forall v | v in variants && Permitted(p, v) :: v in EligibleOf(p, variants)
    ensures forall v | v in RejectedOf(p, variants) :: v in variants && !Permitted(p, v)
  {
    if variants != [] {
      var n := |variants| - 1;
      Partition(p, variants[..n]);
      assert variants == variants[..n] + [variants[n]];
    }
  }

  function RejectionOf(p: Policy, scope: Level, v: Variant): Rejection
    requires !Permitted(p, v)
  {
    Rejection(v.index, ScopeOf(p, scope, Check(p, v).value.1), Check(p, v).value.0)
  }

  /** One rejection for each rejected variant, in order, with the first reason against it. */
  ghost predicate Explains(p: Policy, scope: Level, variants: seq<Variant>, rejected: seq<Rejection>) {
    var against := RejectedOf(p, variants);
    |rejected| == |against| && forall i | 0 <= i < |against| :: !Permitted(p, against[i]) && rejected[i] == RejectionOf(p, scope, against[i])
  }

  datatype Decision =
    | NoAllowedVariant(rejected: seq<Rejection>)
    | TranscodeForbidden(index: int, rejected: seq<Rejection>)
    | Selected(variant: Variant, output: Option<int>, rejected: seq<Rejection>)

  method Filter(p: Policy, scope: Level, variants: seq<Variant>) returns (eligible: seq<Variant>, rejected: seq<Rejection>)
    ensures eligible == EligibleOf(p, variants) && Explains(p, scope, variants, rejected)
  {
    eligible, rejected := [], [];
    for i := 0 to |variants|
      invariant eligible == EligibleOf(p, variants[..i]) && Explains(p, scope, variants[..i], rejected)
    {
      var v := variants[i];
      assert variants[..i + 1][..i] == variants[..i];
      CheckIsExact(p, v);
      var check := Check(p, v);
      if check.Some? {
        rejected := rejected + [Rejection(v.index, ScopeOf(p, scope, check.value.1), check.value.0)];
      } else {
        eligible := eligible + [v];
      }
    }
    assert variants[..|variants|] == variants;
  }

  method Best(p: Policy, eligible: seq<Variant>) returns (best: Variant)
    requires eligible != []
    ensures best in eligible && forall w | w in eligible :: !Preferred(p, w, best)
  {
    hide RankKey, Preferred;
    best := eligible[0];
    for i := 1 to |eligible|
      invariant best in eligible && forall j | 0 <= j < i :: !Less(RankKey(p, eligible[j]), RankKey(p, best))
    {
      var less := LessKey(RankKey(p, eligible[i]), RankKey(p, best));
      if less {
        forall j | 0 <= j <= i ensures !Less(RankKey(p, eligible[j]), RankKey(p, eligible[i])) {
          if Less(RankKey(p, eligible[j]), RankKey(p, eligible[i])) {
            LessTransitive(RankKey(p, eligible[j]), RankKey(p, eligible[i]), RankKey(p, best));
          }
        }
        best := eligible[i];
      }
    }
    forall w | w in eligible ensures !Preferred(p, w, best) {
      KeyPrefers(p, w, best);
    }
  }

  /** Filters, ranks and selects. */
  method Evaluate(p: Policy, scope: Level, variants: seq<Variant>) returns (d: Decision)
    ensures Explains(p, scope, variants, d.rejected)
    ensures d.NoAllowedVariant? <==> forall v | v in variants :: !Permitted(p, v)
    ensures d.TranscodeForbidden? ==> p.allowTranscode == Deny && exists v :: IsBest(p, variants, v) && v.index == d.index && v.playability.Transcode?
    ensures d.Selected? ==> IsBest(p, variants, d.variant) && !(d.variant.playability.Transcode? && p.allowTranscode == Deny)
    ensures d.Selected? ==> d.output == if Above(d.variant.bitrate, p.maxStreaming) then p.maxStreaming else None
  {
    var eligible, rejected := Filter(p, scope, variants);
    Partition(p, variants);
    if eligible == [] {
      return NoAllowedVariant(rejected);
    }
    assert eligible[0] in variants && Permitted(p, eligible[0]);
    var best := Best(p, eligible);
    assert IsBest(p, variants, best);
    if best.playability.Transcode? && p.allowTranscode == Deny {
      return TranscodeForbidden(best.index, rejected);
    }
    d := Selected(best, if Above(best.bitrate, p.maxStreaming) then p.maxStreaming else None, rejected);
  }
}
