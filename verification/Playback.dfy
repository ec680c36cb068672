/** Playback negotiation and the boundary that later part and manifest requests are checked at. */
module Playback {
  import opened Basics
  import opened PolicyEngine
  import opened MediaSources

  datatype Mode = DirectPlays | DirectStreams | Transcodes

  datatype Session = Session(
    ratingKey: string, identity: string, client: string, index: int,
    partId: string, partKey: string, variantId: string, mode: Mode, policy: Policy)

  /** What the media server answers to the forwarded negotiation, if it can be read. */
  datatype Answer = Unreadable | Answer(status: int, code: int, directPlay: bool, directStream: bool, transcode: bool, index: Option<int>)

  function ModeOf(a: Answer): Mode
    requires a.Answer?
  {
    if a.directPlay then DirectPlays else if a.directStream then DirectStreams else Transcodes
  }

  predicate Negotiated(a: Answer) {
    a.Answer? && 200 <= a.status <= 299 && !(a.code == 0 && !a.directPlay && !a.directStream && !a.transcode)
  }

  /** The mode is the one the flags say, and transcoding only comes from an answer with neither. */
  ghost predicate ModeMatches(mode: Mode, a: Answer) {
    && a.Answer?
    && (mode.DirectPlays? <==> a.directPlay)
    && (mode.DirectStreams? <==> a.directStream && !a.directPlay)
    && (mode.Transcodes? <==> !a.directPlay && !a.directStream)
  }

  /** A success that carries some outcome. */
  ghost predicate Usable(a: Answer) {
    a.Answer? && 200 <= a.status <= 299 && (a.code != 0 || a.directPlay || a.directStream || a.transcode)
  }

  // ---- The source of a session ------------------------------------------------------------------

  /** The position of the first source with a media index, or -1. */
  method IndexOf(sources: seq<Source>, index: int) returns (pos: int)
    ensures pos < 0 <==> forall s | s in sources :: s.media.index != index
    ensures pos >= 0 ==> IsFirst(sources, index, pos)
  {
    for i := 0 to |sources|
      invariant forall j | 0 <= j < i :: sources[j].media.index != index
    {
      if sources[i].media.index == index {
        return i;
      }
    }
    return -1;
  }

  predicate IsFirst(sources: seq<Source>, index: int, pos: int) {
    0 <= pos < |sources| && sources[pos].media.index == index && forall j | 0 <= j < pos :: sources[j].media.index != index
  }

  /** With distinct media indexes the source looked up is the selected one. */
  lemma FirstIsSelected(sources: seq<Source>, v: Variant, pos: nat)
    requires DistinctIndexes(ToVariants(sources)) && v in ToVariants(sources) && IsFirst(sources, v.index, pos)
    ensures ToVariant(sources[pos]) == v
  {
    var vs := ToVariants(sources);
    var i :| 0 <= i < |vs| && vs[i] == v;
    assert vs[pos].index == vs[i].index;
  }

  lemma {:induction false} RejectedAreListed(p: Policy, scope: Level, variants: seq<Variant>, rejected: seq<Rejection>, v: Variant)
    requires Explains(p, scope, variants, rejected) && v in variants && !Permitted(p, v)
    ensures exists i :: 0 <= i < |rejected| && rejected[i].index == v.index
  {
    Partition(p, variants);
    assert v in multiset(variants) && v !in EligibleOf(p, variants);
    assert v in multiset(EligibleOf(p, variants)) + multiset(RejectedOf(p, variants));
    var i :| 0 <= i < |RejectedOf(p, variants)| && RejectedOf(p, variants)[i] == v;
    assert rejected[i].index == v.index;
  }

  lemma NeverTranscodes(sources: seq<Source>)
    ensures forall v | v in ToVariants(sources) :: v.playability.UnknownPlayability?
  {
  }

  lemma NoneEligible(p: Policy, sources: seq<Source>)
    ensures (forall s | s in sources :: !Eligible(p, s)) <==> (forall v | v in ToVariants(sources) :: !Permitted(p, v))
  {
    var vs := ToVariants(sources);
    forall i | 0 <= i < |vs| ensures vs[i] in vs && sources[i] in sources {
    }
  }

  method IsRejected(rejected: seq<Rejection>, index: int) returns (found: bool)
    ensures found <==> exists i :: 0 <= i < |rejected| && rejected[i].index == index
  {
    for i := 0 to |rejected|
      invariant forall j | 0 <= j < i :: rejected[j].index != index
    {
      if rejected[i].index == index {
        return true;
      }
    }
    return false;
  }

  /** The media server moved the negotiation to another known index. */
  predicate Moved(sources: seq<Source>, selected: int, a: Answer)
    requires a.Answer?
  {
    a.index.Some? && a.index.value != selected && exists i | 0 <= i < |sources| :: sources[i].media.index == a.index.value
  }

  /** The media server moved to an index under which some source is rejected. */
  predicate MovedToRejected(p: Policy, sources: seq<Source>, selected: int, a: Answer)
    requires a.Answer?
  {
    a.index.Some? && a.index.value != selected && exists s | s in sources :: s.media.index == a.index.value && !Eligible(p, s)
  }

  lemma RejectedIffListed(p: Policy, scope: Level, sources: seq<Source>, rejected: seq<Rejection>, a: Answer)
    requires Explains(p, scope, ToVariants(sources), rejected) && a.Answer? && a.index.Some?
    ensures (exists i :: 0 <= i < |rejected| && rejected[i].index == a.index.value) <==> exists s | s in sources :: s.media.index == a.index.value && !Eligible(p, s)
  {
    var vs := ToVariants(sources);
    Partition(p, vs);
    if s :| s in sources && s.media.index == a.index.value && !Eligible(p, s) {
      var i :| 0 <= i < |sources| && sources[i] == s;
      assert vs[i] in vs;
      RejectedAreListed(p, scope, vs, rejected, vs[i]);
    }
    if i :| 0 <= i < |rejected| && rejected[i].index == a.index.value {
      var v := RejectedOf(p, vs)[i];
      assert v in RejectedOf(p, vs);
      var j :| 0 <= j < |vs| && vs[j] == v;
      assert sources[j] in sources && sources[j].media.index == a.index.value && !Eligible(p, sources[j]);
    }
  }

  /** The source a successful negotiation settles on: the selected one, or the one the server
      moved to, and always an eligible one; None if the server chose a rejected index. */
  method Settle(p: Policy, scope: Level, sources: seq<Source>, d: Decision, a: Answer) returns (pos: Option<nat>)
    requires d.Selected? && IsBest(p, ToVariants(sources), d.variant) && Explains(p, scope, ToVariants(sources), d.rejected)
    requires a.Answer? && SourcesOk(sources)
    ensures pos.None? <==> a.index.Some? && a.index.value != d.variant.index && exists i :: 0 <= i < |d.rejected| && d.rejected[i].index == a.index.value
    ensures pos.Some? ==> pos.value < |sources| && SettledOn(p, sources, d.variant, a, sources[pos.value])
  {
    var index := d.variant.index;
    var vs := ToVariants(sources);
    ghost var k :| 0 <= k < |vs| && vs[k] == d.variant;
    assert sources[k].media.index == index && sources[k] in sources;
    var first := IndexOf(sources, index);
    FirstIsSelected(sources, d.variant, first);
    pos := Some(first);
    if a.index.Some? && a.index.value != index {
      var found := IsRejected(d.rejected, a.index.value);
      var other := IndexOf(sources, a.index.value);
      if found {
        pos := None;
      } else if other >= 0 {
        pos := Some(other);
        assert Eligible(p, sources[other]) by {
          if !Eligible(p, sources[other]) {
            assert vs[other] in vs;
            RejectedAreListed(p, scope, vs, d.rejected, vs[other]);
          }
        }
      } else {
        assert forall i | 0 <= i < |sources| :: sources[i] in sources;
      }
    }
  }

  /** An eligible source: the one the server moved to if it moved, else the best one. */
  ghost predicate SettledOn(p: Policy, sources: seq<Source>, best: Variant, a: Answer, s: Source)
    requires a.Answer?
  {
    && s in sources && Eligible(p, s)
    && if Moved(sources, best.index, a) then s.media.index == a.index.value else ToVariant(s) == best
  }

  // ---- The engine -------------------------------------------------------------------------------

  /** One negotiation request as the engine sees it; loaded is None if no policy could be loaded. */
  datatype Request = Request(
    ratingKey: string, token: string, sessionId: string, identity: string, client: string,
    loaded: Option<(Policy, Level)>, sources: seq<Source>, answer: Answer)

  datatype Reply = Unsupported | PolicyLoadFailed | NoOriginVariants | NoVariantAllowed | EvaluationFailed
                 | OriginUnavailable | DecisionRejected | OriginMismatch | TranscodingForbidden | PersistFailed | Accepted

  /** Who asks: an empty token proves nothing. */
  datatype Requester = Requester(token: string, identity: string, client: string, loaded: Option<(Policy, Level)>)

  /** What a manifest request asks for: the title if named, whether it forces a transcode, and the
      media index, which may be absent, a number, or not a number. */
  datatype Manifest = Manifest(ratingKey: string, forcesTranscode: bool, mediaIndex: Option<Option<int>>)

  datatype Verdict = Pass | Substitute(key: string) | DecisionRequired | IdentityMismatch | Mismatch | Forbidden

  predicate BindingMismatch(identity: string, client: string, curIdentity: string, curClient: string) {
    if identity == "" && client == "" then false
    else if identity != "" && identity != curIdentity then true
    else client != "" && client != curClient
  }

  predicate Bound(s: Session, r: Requester) {
    (s.identity == "" && s.client == "") || (r.token != "" && !BindingMismatch(s.identity, s.client, r.identity, r.client))
  }

  /** A bound session is used only by a requester that proves every identity it names. */
  lemma BindingIsProved(s: Session, r: Requester)
    ensures Bound(s, r) <==>
            (s.identity == "" && s.client == "") ||
            (r.token != "" && (s.identity != "" ==> r.identity == s.identity) && (s.client != "" ==> r.client == s.client))
  {
  }

  /** The part belongs to the variant of the session, as far as the index knows. */
  predicate SameVariant(index: map<string, Part>, s: Session, partId: string) {
    && partId != "" && partId in index && index[partId].ratingKey == s.ratingKey
    && if s.variantId != "" then index[partId].source.variantId == s.variantId
       else s.index >= 0 && s.ratingKey != "" && index[partId].source.media.index == s.index
  }

  /** A session negotiated from the index: every available part that passes as one of the selected
      variant is eligible under the session's policy. */
  lemma SameVariantIsEligible(ix: Index, index: map<string, Part>, s: Session, source: Source, partId: string)
    requires SchemaOk(ix) && SameVariant(index, s, partId) && IsPart(ix, partId, index[partId])
    requires FromIndex(ix, s.ratingKey, source) && s.variantId == source.variantId != "" && Eligible(s.policy, source)
    ensures index[partId].source.available ==> Eligible(s.policy, index[partId].source)
  {
    PartMatchesSource(ix, partId, index[partId], source);
  }

  /** A session negotiated live, whose title the index has learnt of since: all available parts that
      pass are eligible, or none is; they are if the index describes the title's medium as the
      live metadata did. */
  lemma LiveSessionParts(ix: Index, index: map<string, Part>, s: Session, source: Source, partId: string)
    requires SchemaOk(ix) && forall id | id in index :: IsPart(ix, id, index[id])
    requires s.variantId == "" && s.index == source.media.index && Eligible(s.policy, source)
    requires SameVariant(index, s, partId) && index[partId].source.available
    ensures Eligible(s.policy, index[partId].source) <==>
            forall id | SameVariant(index, s, id) && index[id].source.available :: Eligible(s.policy, index[id].source)
    ensures index[partId].source.media == source.media ==> Eligible(s.policy, index[partId].source)
  {
    forall id | SameVariant(index, s, id) && index[id].source.available
      ensures Eligible(s.policy, index[id].source) <==> Eligible(s.policy, index[partId].source)
    {
      PartsAreDescribedAlike(ix, partId, id, index[partId], index[id]);
    }
  }

  datatype Event = Decide(r: Request) | End(sessionId: string)

  class Engine {
    var sessions: map<string, Session>
    /** The source each session was negotiated for. */
    ghost var chosen: map<string, Source>
    /** The answer each session was negotiated with. */
    ghost var answers: map<string, Answer>

    /** Every session stands for an eligible source and plays as it was negotiated. */
    ghost predicate Valid()
      reads this
    {
      && chosen.Keys == sessions.Keys == answers.Keys
      && forall k | k in sessions :: SessionOk(sessions[k], chosen[k]) && AnswerOk(sessions[k], answers[k])
    }

    /** The session plays in the mode of its answer, which is a direct one if transcoding is denied. */
    static ghost predicate AnswerOk(s: Session, a: Answer) {
      && Usable(a) && ModeMatches(s.mode, a)
      && (s.policy.allowTranscode == Deny ==> a.directPlay || a.directStream)
    }

    static ghost predicate SessionOk(s: Session, source: Source) {
      && Eligible(s.policy, source) && s.partKey != ""
      && s.index == source.media.index && s.partKey == source.partKey && s.partId == source.partId && s.variantId == source.variantId
      && (s.mode.Transcodes? ==> s.policy.allowTranscode != Deny)
    }

    constructor ()
      ensures Valid() && sessions == map[]
    {
      sessions, chosen, answers := map[], map[], map[];
    }

    function StoredUnder(r: Request): string {
      if r.sessionId == "" then "mem-" + r.ratingKey else r.sessionId
    }

    method Create(r: Request, p: Policy, source: Source)
      requires Valid() && Negotiated(r.answer) && (ModeOf(r.answer).Transcodes? ==> p.allowTranscode != Deny)
      requires Eligible(p, source) && source.partKey != ""
      modifies this
      ensures Valid()
      ensures sessions == old(sessions)[StoredUnder(r) := Session(r.ratingKey, r.identity, r.client, source.media.index, source.partId, source.partKey, source.variantId, ModeOf(r.answer), p)]
      ensures chosen == old(chosen)[StoredUnder(r) := source] && answers == old(answers)[StoredUnder(r) := r.answer]
    {
      var k := StoredUnder(r);
      sessions := sessions[k := Session(r.ratingKey, r.identity, r.client, source.media.index, source.partId, source.partKey, source.variantId, ModeOf(r.answer), p)];
      chosen, answers := chosen[k := source], answers[k := r.answer];
    }

    /** A negotiation that succeeded at the media server becomes a session, unless the server chose
        a rejected index or a forbidden transcode. */
    method Conclude(r: Request, p: Policy, scope: Level, d: Decision) returns (reply: Reply)
      requires Valid() && SourcesOk(r.sources) && Negotiated(r.answer)
      requires d.Selected? && IsBest(p, ToVariants(r.sources), d.variant) && Explains(p, scope, ToVariants(r.sources), d.rejected)
      modifies this
      ensures Valid()
      ensures !reply.Accepted? ==> sessions == old(sessions)
      ensures reply.Accepted? || reply.OriginMismatch? || reply.TranscodingForbidden? || reply.PersistFailed?
      ensures reply.OriginMismatch? <==> MovedToRejected(p, r.sources, d.variant.index, r.answer)
      ensures reply.TranscodingForbidden? <==> !reply.OriginMismatch? && !r.answer.directPlay && !r.answer.directStream && p.allowTranscode == Deny
      ensures reply.Accepted? ==> Records(r, p, old(sessions)) && SettledOn(p, r.sources, d.variant, r.answer, chosen[StoredUnder(r)])
    {
      var pos := Settle(p, scope, r.sources, d, r.answer);
      if r.answer.index.Some? {
        RejectedIffListed(p, scope, r.sources, d.rejected, r.answer);
      }
      var persists := *;
      if pos.None? {
        reply := OriginMismatch;
      } else if ModeOf(r.answer).Transcodes? && p.allowTranscode == Deny {
        reply := TranscodingForbidden;
      } else if !persists {
        reply := PersistFailed;
      } else {
        Create(r, p, r.sources[pos.value]);
        reply := Accepted;
      }
    }

    /** The session of an accepted request, and for which source it stands. */
    ghost predicate Records(r: Request, p: Policy, before: map<string, Session>)
      reads this
    {
      var k := StoredUnder(r);
      && k in sessions && k in chosen && sessions == before[k := sessions[k]] && chosen[k] in r.sources
      && k in answers && answers[k] == r.answer && AnswerOk(sessions[k], r.answer)
      && sessions[k] == Session(r.ratingKey, r.identity, r.client, chosen[k].media.index, chosen[k].partId, chosen[k].partKey, chosen[k].variantId, sessions[k].mode, p)
    }

    method Negotiate(r: Request, p: Policy, scope: Level) returns (reply: Reply)
      requires Valid() && SourcesOk(r.sources)
      modifies this
      ensures Valid()
      ensures !reply.Accepted? ==> sessions == old(sessions)
      ensures reply.NoVariantAllowed? <==> forall s | s in r.sources :: !Eligible(p, s)
      ensures !reply.NoVariantAllowed? ==> (reply.OriginUnavailable? <==> r.answer.Unreadable?) && (reply.DecisionRejected? <==> r.answer.Answer? && !Usable(r.answer))
      ensures reply.OriginMismatch? <==>
              Usable(r.answer) && exists v :: IsBest(p, ToVariants(r.sources), v) && MovedToRejected(p, r.sources, v.index, r.answer)
      ensures reply.TranscodingForbidden? <==>
              && Usable(r.answer) && !reply.NoVariantAllowed? && !reply.OriginMismatch?
              && !r.answer.directPlay && !r.answer.directStream && p.allowTranscode == Deny
      ensures !reply.Unsupported? && !reply.PolicyLoadFailed? && !reply.NoOriginVariants? && !reply.EvaluationFailed?
      ensures reply.Accepted? ==>
                && Usable(r.answer) && Records(r, p, old(sessions))
                && exists v :: IsBest(p, ToVariants(r.sources), v) && SettledOn(p, r.sources, v, r.answer, chosen[StoredUnder(r)])
    {
      var d := Evaluate(p, scope, ToVariants(r.sources));
      NoneEligible(p, r.sources);
      NeverTranscodes(r.sources);
      if d.NoAllowedVariant? {
        reply := NoVariantAllowed;
      } else if d.TranscodeForbidden? {
        reply := EvaluationFailed;
      } else if r.answer.Unreadable? {
        reply := OriginUnavailable;
      } else if !Negotiated(r.answer) {
        reply := DecisionRejected;
      } else {
        reply := Conclude(r, p, scope, d);
        forall v | IsBest(p, ToVariants(r.sources), v) ensures v == d.variant {
          BestIsUnique(p, ToVariants(r.sources), v, d.variant);
        }
      }
    }

    /** The policy is known and permits some source. */
    ghost predicate Open(r: Request) {
      r.ratingKey != "" && r.token != "" && r.loaded.Some? && exists s | s in r.sources :: Eligible(r.loaded.value.0, s)
    }

    /** Negotiates playback. Whatever is refused leaves the sessions alone; whatever is accepted
        becomes a session under the policy in force, for the best eligible source or, if the server
        moved to another known index, for the eligible source with that one. */
    method HandleDecision(r: Request) returns (reply: Reply)
      requires Valid() && SourcesOk(r.sources)
      modifies this
      ensures Valid()
      ensures !reply.Accepted? ==> sessions == old(sessions)
      ensures reply.Unsupported? <==> r.ratingKey == "" || r.token == ""
      ensures reply.PolicyLoadFailed? <==> !reply.Unsupported? && r.loaded.None?
      ensures reply.NoOriginVariants? <==> !reply.Unsupported? && r.loaded.Some? && r.sources == []
      ensures reply.NoVariantAllowed? <==>
              r.ratingKey != "" && r.token != "" && r.loaded.Some? && r.sources != [] && forall s | s in r.sources :: !Eligible(r.loaded.value.0, s)
      ensures reply.OriginUnavailable? <==> Open(r) && r.answer.Unreadable?
      ensures reply.DecisionRejected? <==> Open(r) && r.answer.Answer? && !Usable(r.answer)
      ensures reply.OriginMismatch? <==>
              && Open(r) && Usable(r.answer)
              && exists v :: IsBest(r.loaded.value.0, ToVariants(r.sources), v) && MovedToRejected(r.loaded.value.0, r.sources, v.index, r.answer)
      ensures reply.TranscodingForbidden? <==>
              && Open(r) && Usable(r.answer) && !reply.OriginMismatch?
              && !r.answer.directPlay && !r.answer.directStream && r.loaded.value.0.allowTranscode == Deny
      ensures reply.Accepted? ==>
                && Open(r) && Usable(r.answer) && Records(r, r.loaded.value.0, old(sessions))
                && exists v :: IsBest(r.loaded.value.0, ToVariants(r.sources), v) && SettledOn(r.loaded.value.0, r.sources, v, r.answer, chosen[StoredUnder(r)])
    {
      if r.ratingKey == "" || r.token == "" {
        reply := Unsupported;
      } else if r.loaded.None? {
        reply := PolicyLoadFailed;
      } else if r.sources == [] {
        reply := NoOriginVariants;
      } else {
        reply := Negotiate(r, r.loaded.value.0, r.loaded.value.1);
      }
    }

    method EndSession(sessionId: string)
      requires Valid()
      modifies this
      ensures Valid() && sessions == old(sessions) - {sessionId}
    {
      sessions, chosen, answers := sessions - {sessionId}, chosen - {sessionId}, answers - {sessionId};
    }

    // ---- The boundary --------------------------------------------------------------------------

    /** Without a session a part passes exactly if the requester's own policy permits it. */
    static method EnforceStateless(index: map<string, Part>, partId: string, r: Requester) returns (v: Verdict)
      ensures v.Pass? || v.DecisionRequired?
      ensures v.Pass? <==> r.token != "" && partId != "" && partId in index && r.loaded.Some? && Eligible(r.loaded.value.0, index[partId].source)
    {
      if r.token == "" || partId == "" || partId !in index || r.loaded.None? {
        return DecisionRequired;
      }
      var variant := ToVariant(index[partId].source);
      var d := Evaluate(r.loaded.value.0, r.loaded.value.1, [variant]);
      assert variant in [variant];
      v := if d.Selected? then Pass else DecisionRequired;
    }

    /** The negotiated title and media index, proven binding, and no forbidden transcode. */
    ghost predicate ManifestAllowed(sessionId: string, r: Requester, m: Manifest, reachable: bool)
      requires Valid()
      reads this
    {
      && reachable && sessionId in sessions && Bound(sessions[sessionId], r)
      && (m.ratingKey != "" ==> m.ratingKey == sessions[sessionId].ratingKey)
      && !(m.forcesTranscode && sessions[sessionId].policy.allowTranscode == Deny)
      && chosen[sessionId].media.index >= 0 && m.mediaIndex != Some(None)
      && chosen[sessionId].media.index == if m.mediaIndex.None? then 0 else m.mediaIndex.value.value
    }

    /** With a session, only a requester that proves its binding gets anything: the selected part or
        another part of the selected variant passes, and any other part is replaced by the selected
        one. Without one the request is judged on its own. A request without a part is for a
        manifest. reachable: the store answered. */
    method EnforcePart(index: map<string, Part>, partId: string, sessionId: string, r: Requester, m: Manifest, reachable: bool) returns (v: Verdict)
      requires Valid()
      ensures partId == "" ==> (v.Pass? <==> ManifestAllowed(sessionId, r, m, reachable))
      ensures partId != "" ==>
                var found := reachable && sessionId != "" && sessionId in sessions;
                if !found then v.Pass? <==> r.token != "" && partId in index && r.loaded.Some? && Eligible(r.loaded.value.0, index[partId].source)
                else
                  var s := sessions[sessionId];
                  && (!Bound(s, r) ==> v.IdentityMismatch?)
                  && (v.Pass? <==> Bound(s, r) && s.partId != "" && (partId == s.partId || SameVariant(index, s, partId)))
                  && (v.Substitute? ==> v.key == chosen[sessionId].partKey != "" && (s.partId == "" || (partId != chosen[sessionId].partId && !SameVariant(index, s, partId))))
                  && (Bound(s, r) ==> (v.Pass? || v == Substitute(chosen[sessionId].partKey)) && Eligible(s.policy, chosen[sessionId]))
    {
      if partId == "" {
        v := EnforceManifest(sessionId, r, m, reachable);
        return;
      }
      if !reachable || sessionId == "" || sessionId !in sessions {
        v := EnforceStateless(index, partId, r);
        return;
      }
      var s := sessions[sessionId];
      if !Bound(s, r) {
        v := IdentityMismatch;
      } else if s.partId != "" && (partId == s.partId || SameVariant(index, s, partId)) {
        v := Pass;
      } else {
        v := if s.partKey != "" then Substitute(s.partKey) else DecisionRequired;
      }
    }

    /** A manifest passes exactly if it stays on what was negotiated. */
    method EnforceManifest(sessionId: string, r: Requester, m: Manifest, reachable: bool) returns (v: Verdict)
      requires Valid()
      ensures v.Pass? <==> ManifestAllowed(sessionId, r, m, reachable)
      ensures !v.Substitute?
    {
      if !reachable || sessionId !in sessions {
        return DecisionRequired;
      }
      var s := sessions[sessionId];
      if !Bound(s, r) {
        return IdentityMismatch;
      }
      if m.ratingKey != "" && m.ratingKey != s.ratingKey {
        return Mismatch;
      }
      if m.forcesTranscode && s.policy.allowTranscode == Deny {
        return Forbidden;
      }
      if s.index < 0 {
        return DecisionRequired;
      }
      var n := 0;
      if m.mediaIndex.Some? {
        if m.mediaIndex.value.None? || m.mediaIndex.value.value < 0 {
          return Mismatch;
        }
        n := m.mediaIndex.value.value;
      }
      v := if n == s.index then Pass else Mismatch;
    }

    /** In every run the boundary only ever works with sessions for eligible sources. */
    method Run(requests: seq<Event>)
      requires Valid() && forall i | 0 <= i < |requests| && requests[i].Decide? :: SourcesOk(requests[i].r.sources)
      modifies this
      ensures Valid()
      ensures forall k | k in sessions ::
                && Meets(sessions[k].policy, chosen[k].media.width, chosen[k].media.height, chosen[k].media.bitrate, chosen[k].media.range)
                && sessions[k].partKey == chosen[k].partKey != "" && ModeMatches(sessions[k].mode, answers[k])
                && (sessions[k].policy.allowTranscode == Deny ==> answers[k].directPlay || answers[k].directStream)
    {
      for i := 0 to |requests|
        invariant Valid()
      {
        match requests[i]
        case Decide(r) => var _ := HandleDecision(r);
        case End(sessionId) => EndSession(sessionId);
      }
      forall k | k in sessions
        ensures Meets(sessions[k].policy, chosen[k].media.width, chosen[k].media.height, chosen[k].media.bitrate, chosen[k].media.range)
      {
        EligibleMeans(sessions[k].policy, chosen[k]);
      }
    }
  }
}
