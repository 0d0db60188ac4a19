/**
 * The extraction contract and its checker (`claim_model.py`, `_validate_candidate_evidence`,
 * `_weakest_evidence_class`, `validate_extraction_contract_v2`).
 */
module ClaimContract {
  import opened Common
  import opened DerivationGraph
  import opened Evidence
  import EvidenceDerivations

  datatype ClaimType = PersonMention | Relationship | Event | Description | Story | Question

  datatype ClaimRef = ClaimRef(kind: ClaimType, id: Id)

  datatype VerificationStatus = Unreviewed | Confirmed | Rejected

  datatype Provenance = Provenance(
    recording: Id,
    speakerId: Id,
    speakerName: string,
    generatedBy: Id,
    validatedBy: seq<Id>,
    evidenceIds: seq<Id>,
    derivedFromClaims: seq<Id>
  )

  /** An evidence-backed object; `status` is absent for stories and questions, which have no such attribute. */
  datatype Claim = Claim(
    ref: ClaimRef,
    sources: seq<Id>,
    evidenceIds: seq<Id>,
    cls: EvidenceClass,
    linkIds: seq<Id>,
    conflictIds: seq<Id>,
    mentions: seq<Id>,
    provenance: Option<Provenance>,
    status: Option<VerificationStatus>
  )

  datatype LinkStatus = Resolved | Ambiguous | Unresolved | RejectedLink

  datatype LinkMethod =
    | ExplicitNaming | SpeakerAnchor | Morphological | DeterministicDiscourse | ModelProposal | HumanReview

  datatype CoreferenceLink = CoreferenceLink(
    id: Id,
    anaphor: string,
    sources: seq<Id>,
    evidenceIds: seq<Id>,
    status: LinkStatus,
    how: LinkMethod,
    antecedents: seq<Id>,
    candidates: seq<Id>,
    verification: VerificationStatus
  )

  datatype ConflictSet = ConflictSet(id: Id, refs: seq<ClaimRef>, evidenceIds: seq<Id>,
                                     verification: VerificationStatus)

  datatype Segment = Segment(id: Id, text: string)

  datatype Transcript = Transcript(recording: Id, asrModel: string, asrRevision: string, segments: seq<Segment>)

  /** `claims` lists people, relationships, events, descriptions, stories and questions in that order. */
  datatype Extraction = Extraction(
    v2: bool,
    recording: Id,
    speakerId: Id,
    speakerName: string,
    activities: seq<Id>,
    spans: seq<EvidenceSpan>,
    links: seq<CoreferenceLink>,
    claims: seq<Claim>,
    conflicts: seq<ConflictSet>
  )

  /** What the models' own validators guarantee of every extraction. */
  ghost predicate WellFormed(x: Extraction) {
    && (forall i, j :: 0 <= i < j < |x.spans| ==> x.spans[i].id != x.spans[j].id)
    && (forall i, j :: 0 <= i < j < |x.links| ==> x.links[i].id != x.links[j].id)
    && (forall i, j :: 0 <= i < j < |x.conflicts| ==> x.conflicts[i].id != x.conflicts[j].id)
    && (forall k :: k in x.conflicts ==> Distinct(k.refs))
  }

  ghost predicate WellFormedTranscript(t: Transcript) {
    && (forall i, j :: 0 <= i < j < |t.segments| ==> t.segments[i].id != t.segments[j].id)
    && (forall seg :: seg in t.segments ==> seg.text != "")
  }

  /** `{item.id: item for item in spans}`; a later item replaces an earlier one. */
  function SpansById(spans: seq<EvidenceSpan>): (d: Ledger)
    ensures KeyedById(d)
  {
    if spans == [] then
      Dict([], map[])
    else
      var front, s := spans[..|spans| - 1], spans[|spans| - 1];
      assert spans == front + [s];
      SpansById(front).Put(s.id, s)
  }

  function LinkIds(links: seq<CoreferenceLink>): set<Id> {
    set l | l in links :: l.id
  }

  function MentionIds(claims: seq<Claim>): set<Id> {
    set c | c in claims && c.ref.kind == PersonMention :: c.ref.id
  }

  function ClaimIndex(claims: seq<Claim>): set<ClaimRef> {
    set c | c in claims :: c.ref
  }

  /** `{segment.segment_id: segment.text}` */
  function RawText(t: Transcript): map<Id, string> {
    TextBySegment(t.segments)
  }

  function TextBySegment(segments: seq<Segment>): (m: map<Id, string>)
    ensures m.Keys == set s | s in segments :: s.id
  {
    if segments == [] then
      map[]
    else
      var front, s := segments[..|segments| - 1], segments[|segments| - 1];
      assert segments == front + [s];
      TextBySegment(front)[s.id := s.text]
  }

  lemma {:induction false} TextOfSegment(segments: seq<Segment>, s: Segment)
    requires (forall i, j :: 0 <= i < j < |segments| ==> segments[i].id != segments[j].id) && s in segments
    ensures s.id in TextBySegment(segments) && TextBySegment(segments)[s.id] == s.text
  {
    var front, last := segments[..|segments| - 1], segments[|segments| - 1];
    assert segments == front + [last];
    if s != last {
      TextOfSegment(front, s);
      assert s.id != last.id;
    }
  }

  /** Python's `part in whole` for strings. */
  predicate ContainsText(whole: string, part: string) {
    exists i :: 0 <= i <= |whole| - |part| && OccursAt(whole, part, i)
  }

  predicate OccursAt(whole: string, part: string, i: int)
    requires 0 <= i <= |whole| - |part|
  {
    whole[i..i + |part|] == part
  }

  /** Python's `s[a:b]` for non-negative bounds. */
  function Slice(s: string, a: nat, b: nat): string {
    var hi := if b < |s| then b else |s|;
    if a < hi then s[a..hi] else ""
  }

  /** `_validate_candidate_evidence`: the first rule the span breaks. */
  function ValidateCandidate(
    e: EvidenceSpan, raw: map<Id, string>, readable: map<Id, string>, mentions: set<Id>
  ): Option<IssueCode>
  {
    if e.segment !in raw then Some(EvidenceUnknownSegment)
    else if e.layer.ReadableTranscript? && e.segment !in readable then Some(EvidenceWrongSourceLayer)
    else
      var source := if e.layer.RawTranscript? then raw[e.segment] else readable[e.segment];
      var opposite :=
        if e.layer.ReadableTranscript? then Some(raw[e.segment])
        else if e.segment in readable then Some(readable[e.segment])
        else None;
      if !ContainsText(source, e.text) then
        if opposite.Some? && ContainsText(opposite.value, e.text) then Some(EvidenceWrongSourceLayer)
        else Some(EvidenceTextNotInSource)
      else if e.start.None? || e.end.None? then Some(EvidenceOffsetsUnrecoverable)
      else if Slice(source, e.start.value, e.end.value) != e.text then Some(EvidenceOffsetsUnrecoverable)
      else if ToSet(e.mentions) - mentions != {} then Some(EvidenceUnknownMention)
      else None
  }

  /** The text of the layer that the span names, if that layer has its segment. */
  function LayerText(e: EvidenceSpan, raw: map<Id, string>, readable: map<Id, string>): Option<string> {
    var layer := if e.layer == RawTranscript then raw else readable;
    if e.segment in layer then Some(layer[e.segment]) else None
  }

  /** The text occurs in the other layer. */
  ghost predicate InOtherLayer(e: EvidenceSpan, raw: map<Id, string>, readable: map<Id, string>) {
    var other := if e.layer == RawTranscript then readable else raw;
    e.segment in other && ContainsText(other[e.segment], e.text)
  }

  /** The offsets, cut off at the end of the text, delimit exactly the quoted text. */
  ghost predicate OffsetsExact(e: EvidenceSpan, source: string) {
    && e.start.Some? && e.end.Some?
    && var end := if e.end.value <= |source| then e.end.value else |source|;
       if e.start.value < end then e.text == source[e.start.value..end] else e.text == ""
  }

  /**
   * What an accepted span satisfies, and when each code is given: its segment is known, its layer has it, its offsets
   * delimit the quoted text there, and the people it names are known.
   */
  lemma CandidateMeaning(e: EvidenceSpan, raw: map<Id, string>, readable: map<Id, string>, mentions: set<Id>)
    ensures var verdict, source := ValidateCandidate(e, raw, readable, mentions), LayerText(e, raw, readable);
      var known, quoted := e.segment in raw && source.Some?, source.Some? && ContainsText(source.value, e.text);
      && (verdict == None <==>
            known && OffsetsExact(e, source.value) && forall m :: m in e.mentions ==> m in mentions)
      && (verdict == Some(EvidenceUnknownSegment) <==> e.segment !in raw)
      && (verdict == Some(EvidenceWrongSourceLayer) <==>
            e.segment in raw && (source.None? || (!quoted && InOtherLayer(e, raw, readable))))
      && (verdict == Some(EvidenceTextNotInSource) <==> known && !quoted && !InOtherLayer(e, raw, readable))
      && (verdict == Some(EvidenceOffsetsUnrecoverable) <==> known && quoted && !OffsetsExact(e, source.value))
      && (verdict == Some(EvidenceUnknownMention) <==>
            known && OffsetsExact(e, source.value) && exists m :: m in e.mentions && m !in mentions)
  {
    var source := LayerText(e, raw, readable);
    if source.Some? && OffsetsExact(e, source.value) {
      ExactIsQuoted(e, source.value);
    }
    assert ToSet(e.mentions) - mentions == {} <==> forall m :: m in e.mentions ==> m in mentions by {
      if m :| m in e.mentions && m !in mentions {
        assert m in ToSet(e.mentions) - mentions;
      }
    }
  }

  lemma ExactIsQuoted(e: EvidenceSpan, source: string)
    requires OffsetsExact(e, source)
    ensures ContainsText(source, e.text) && Slice(source, e.start.value, e.end.value) == e.text
  {
    assert OccursAt(source, e.text, if e.text == "" then 0 else e.start.value);
  }

  /** `_weakest_evidence_class`. */
  function Weakest(ids: seq<Id>, ev: map<Id, EvidenceSpan>, fallback: EvidenceClass): (w: EvidenceClass)
    ensures w.Rank() >= fallback.Rank()
    ensures forall i :: i in ids && i in ev ==> w.Rank() >= ev[i].cls.Rank()
    ensures w == fallback || exists i :: i in ids && i in ev && w == ev[i].cls
  {
    if ids == [] then
      fallback
    else
      assert forall i :: i in ids <==> i == ids[0] || i in ids[1..];
      var w := Weakest(ids[1..], ev, fallback);
      if ids[0] in ev && ev[ids[0]].cls.Rank() > w.Rank() then ev[ids[0]].cls else w
  }

  lemma RankInjective(a: EvidenceClass, b: EvidenceClass)
    ensures a.Rank() == b.Rank() ==> a == b
  {
  }

  /**
   * The class is consistent exactly when no cited span is weaker, so a class computed by the builder survives
   * the checker's recomputation.
   */
  lemma WeakestIsFixed(ids: seq<Id>, ev: map<Id, EvidenceSpan>, cls: EvidenceClass)
    ensures Weakest(ids, ev, cls) == cls <==> forall i :: i in ids && i in ev ==> ev[i].cls.Rank() <= cls.Rank()
  {
    var w := Weakest(ids, ev, cls);
    RankInjective(w, cls);
  }

  // ---- the checker ----

  predicate SpanOk(
    e: EvidenceSpan, raw: map<Id, string>, readable: map<Id, string>, mentions: set<Id>, activities: set<Id>
  ) {
    && ValidateCandidate(e, raw, readable, mentions).None?
    && e.createdBy.Some? && e.createdBy.value in activities
  }

  predicate LinkOk(l: CoreferenceLink, ev: map<Id, EvidenceSpan>, mentions: set<Id>) {
    && ToSet(l.evidenceIds) <= ev.Keys
    && ToSet(l.antecedents) + ToSet(l.candidates) <= mentions
    && l.verification == Unreviewed
    && exists i :: i in l.evidenceIds && i in ev && ContainsText(ev[i].text, l.anaphor)
  }

  predicate ConflictOk(k: ConflictSet, ev: map<Id, EvidenceSpan>, index: set<ClaimRef>) {
    && ToSet(k.refs) <= index
    && ToSet(k.evidenceIds) <= ev.Keys
    && k.evidenceIds != []
    && k.verification == Unreviewed
  }

  /** Evidence, class and status of one claim. */
  predicate EvidenceBacked(c: Claim, ev: map<Id, EvidenceSpan>) {
    && (c.status.Some? ==> c.status.value == Unreviewed)
    && c.evidenceIds != []
    && (forall i :: i in c.evidenceIds ==> i in ev && ev[i].segment in c.sources)
    && c.cls == Weakest(c.evidenceIds, ev, c.cls)
  }

  /** The provenance record of one claim. */
  predicate ProvenanceOk(c: Claim, x: Extraction) {
    && c.provenance.Some?
    && var p := c.provenance.value;
    && p.recording == x.recording
    && p.speakerId == x.speakerId
    && p.speakerName == x.speakerName
    && p.generatedBy in x.activities
    && ToSet(p.validatedBy) <= ToSet(x.activities)
    && p.evidenceIds == c.evidenceIds
    && c.ref.id !in p.derivedFromClaims
    && Distinct(p.derivedFromClaims)
  }

  /** Every conflict id names a conflict that lists the claim. */
  predicate ConflictIdsOk(c: Claim, conflicts: seq<ConflictSet>) {
    forall i :: i in c.conflictIds ==> exists k :: k in conflicts && k.id == i && c.ref in k.refs
  }

  predicate ClaimOk(c: Claim, x: Extraction, ev: map<Id, EvidenceSpan>) {
    && EvidenceBacked(c, ev)
    && ProvenanceOk(c, x)
    && ToSet(c.linkIds) <= LinkIds(x.links)
    && ConflictIdsOk(c, x.conflicts)
  }

  /** The rules about spans, links, conflicts and claims one by one. */
  ghost predicate ObjectsOk(t: Transcript, readable: map<Id, string>, x: Extraction, ev: map<Id, EvidenceSpan>) {
    var mentions := MentionIds(x.claims);
    && x.activities != []
    && (x.claims != [] ==> ev != map[])
    && (forall e :: e in x.spans ==> SpanOk(e, RawText(t), readable, mentions, ToSet(x.activities)))
    && (forall l :: l in x.links ==> LinkOk(l, ev, mentions))
    && (forall k :: k in x.conflicts ==> ConflictOk(k, ev, ClaimIndex(x.claims)))
    && (forall c :: c in x.claims ==> ClaimOk(c, x, ev))
  }

  /** Everything `validate_extraction_contract_v2` demands, except the rules about name variants. */
  ghost predicate ValidContract(t: Transcript, readable: map<Id, string>, x: Extraction) {
    x.v2 ==>
      var ev := SpansById(x.spans);
      ObjectsOk(t, readable, x, ev.at) && Closed(Citations(ev)) && Acyclic(Citations(ev))
  }

  // ---- the rules in plain terms ----

  /** The span stands where it says, names known people, and was created by a recorded activity. */
  ghost predicate PlainSpan(e: EvidenceSpan, t: Transcript, readable: map<Id, string>, x: Extraction) {
    var source := LayerText(e, RawText(t), readable);
    && e.segment in RawText(t) && source.Some? && OffsetsExact(e, source.value)
    && (forall m :: m in e.mentions ==> IsMention(x, m))
    && e.createdBy.Some? && e.createdBy.value in x.activities
    && (forall d :: d in e.derivedFrom ==> exists f :: f in x.spans && f.id == d)
  }

  ghost predicate IsMention(x: Extraction, m: Id) {
    exists c :: c in x.claims && c.ref == ClaimRef(PersonMention, m)
  }

  ghost predicate PlainLink(l: CoreferenceLink, x: Extraction) {
    && (forall i :: i in l.evidenceIds ==> exists e :: e in x.spans && e.id == i)
    && (forall m :: m in l.antecedents || m in l.candidates ==> IsMention(x, m))
    && l.verification == Unreviewed
    && exists e :: e in x.spans && e.id in l.evidenceIds && ContainsText(e.text, l.anaphor)
  }

  ghost predicate PlainConflict(k: ConflictSet, x: Extraction) {
    && (forall r :: r in k.refs ==> exists c :: c in x.claims && c.ref == r)
    && (forall i :: i in k.evidenceIds ==> exists e :: e in x.spans && e.id == i)
    && k.evidenceIds != [] && k.verification == Unreviewed
  }

  /** Evidence in its own segments and no weaker than its class, a provenance record of this extraction, known links. */
  ghost predicate PlainClaim(c: Claim, x: Extraction) {
    && c.status != Some(Confirmed) && c.status != Some(Rejected)
    && c.evidenceIds != []
    && (forall i :: i in c.evidenceIds ==>
          exists e :: e in x.spans && e.id == i && e.segment in c.sources && e.cls.Rank() <= c.cls.Rank())
    && c.provenance.Some?
    && var p := c.provenance.value;
    && p.recording == x.recording && p.speakerId == x.speakerId && p.speakerName == x.speakerName
    && p.generatedBy in x.activities && (forall v :: v in p.validatedBy ==> v in x.activities)
    && p.evidenceIds == c.evidenceIds && c.ref.id !in p.derivedFromClaims && Distinct(p.derivedFromClaims)
    && (forall i :: i in c.linkIds ==> exists l :: l in x.links && l.id == i)
    && (forall i :: i in c.conflictIds ==> exists k :: k in x.conflicts && k.id == i && c.ref in k.refs)
  }

  lemma SpansByIdMeans(spans: seq<EvidenceSpan>, i: Id)
    requires forall j, k :: 0 <= j < k < |spans| ==> spans[j].id != spans[k].id
    ensures i in SpansById(spans).at <==> exists e :: e in spans && e.id == i
    ensures forall e :: e in spans && e.id == i ==> SpansById(spans).at[i] == e
    ensures i in SpansById(spans).at ==> SpansById(spans).at[i] in spans && SpansById(spans).at[i].id == i
  {
    SpansByIdMembers(spans, i);
    forall e | e in spans && e.id == i ensures i in SpansById(spans).at && SpansById(spans).at[i] == e {
      SpanIsStored(spans, e);
    }
  }

  lemma {:induction false} SpansByIdMembers(spans: seq<EvidenceSpan>, i: Id)
    ensures i in SpansById(spans).at ==> SpansById(spans).at[i] in spans && SpansById(spans).at[i].id == i
  {
    if spans != [] {
      var front, last := spans[..|spans| - 1], spans[|spans| - 1];
      SpansByIdMembers(front, i);
      assert spans == front + [last];
    }
  }

  lemma PlainSpanMeans(e: EvidenceSpan, t: Transcript, readable: map<Id, string>, x: Extraction)
    requires forall j, k :: 0 <= j < k < |x.spans| ==> x.spans[j].id != x.spans[k].id
    ensures PlainSpan(e, t, readable, x) <==>
            && SpanOk(e, RawText(t), readable, MentionIds(x.claims), ToSet(x.activities))
            && ToSet(e.derivedFrom) <= SpansById(x.spans).at.Keys
  {
    CandidateMeaning(e, RawText(t), readable, MentionIds(x.claims));
    MentionsMean(x);
    forall i ensures i in SpansById(x.spans).at <==> exists f :: f in x.spans && f.id == i {
      SpansByIdMeans(x.spans, i);
    }
    assert forall d :: d in e.derivedFrom <==> d in ToSet(e.derivedFrom);
  }

  lemma MentionsMean(x: Extraction)
    ensures forall m :: m in MentionIds(x.claims) <==> IsMention(x, m)
  {
    forall m ensures m in MentionIds(x.claims) <==> IsMention(x, m) {
      if m in MentionIds(x.claims) {
        var c :| c in x.claims && c.ref.kind == PersonMention && c.ref.id == m;
        assert c.ref == ClaimRef(PersonMention, m);
      }
    }
  }

  lemma PlainLinkMeans(l: CoreferenceLink, x: Extraction)
    requires forall j, k :: 0 <= j < k < |x.spans| ==> x.spans[j].id != x.spans[k].id
    ensures PlainLink(l, x) <==> LinkOk(l, SpansById(x.spans).at, MentionIds(x.claims))
  {
    var ev := SpansById(x.spans).at;
    MentionsMean(x);
    forall i
      ensures i in ev <==> exists e :: e in x.spans && e.id == i
      ensures forall e :: e in x.spans && e.id == i ==> ev[i] == e
      ensures i in ev ==> ev[i] in x.spans && ev[i].id == i
    {
      SpansByIdMeans(x.spans, i);
    }
    assert forall i :: i in l.evidenceIds <==> i in ToSet(l.evidenceIds);
    assert forall m :: m in l.antecedents || m in l.candidates <==> m in ToSet(l.antecedents) + ToSet(l.candidates);
  }

  lemma PlainConflictMeans(k: ConflictSet, x: Extraction)
    requires forall j, k :: 0 <= j < k < |x.spans| ==> x.spans[j].id != x.spans[k].id
    ensures PlainConflict(k, x) <==> ConflictOk(k, SpansById(x.spans).at, ClaimIndex(x.claims))
  {
    forall i ensures i in SpansById(x.spans).at <==> exists e :: e in x.spans && e.id == i {
      SpansByIdMeans(x.spans, i);
    }
    assert forall r :: r in ClaimIndex(x.claims) <==> exists c :: c in x.claims && c.ref == r;
    assert forall r :: r in k.refs <==> r in ToSet(k.refs);
    assert forall i :: i in k.evidenceIds <==> i in ToSet(k.evidenceIds);
  }

  lemma PlainClaimMeans(c: Claim, x: Extraction)
    requires forall j, k :: 0 <= j < k < |x.spans| ==> x.spans[j].id != x.spans[k].id
    ensures PlainClaim(c, x) <==> ClaimOk(c, x, SpansById(x.spans).at)
  {
    var ev := SpansById(x.spans).at;
    WeakestIsFixed(c.evidenceIds, ev, c.cls);
    forall i
      ensures i in ev <==> exists e :: e in x.spans && e.id == i
      ensures forall e :: e in x.spans && e.id == i ==> ev[i] == e
      ensures i in ev ==> ev[i] in x.spans && ev[i].id == i
    {
      SpansByIdMeans(x.spans, i);
    }
    assert forall l :: l in LinkIds(x.links) <==> exists k :: k in x.links && k.id == l;
    assert forall l :: l in c.linkIds <==> l in ToSet(c.linkIds);
    if c.provenance.Some? {
      assert forall v :: v in c.provenance.value.validatedBy <==> v in ToSet(c.provenance.value.validatedBy);
      assert forall v :: v in x.activities <==> v in ToSet(x.activities);
    }
  }

  /** What the checker demands, in plain terms. */
  lemma ValidMeans(t: Transcript, readable: map<Id, string>, x: Extraction)
    requires WellFormed(x) && x.v2
    ensures ValidContract(t, readable, x) <==>
            && x.activities != [] && (x.claims != [] ==> x.spans != [])
            && (forall e :: e in x.spans ==> PlainSpan(e, t, readable, x))
            && (forall l :: l in x.links ==> PlainLink(l, x))
            && (forall k :: k in x.conflicts ==> PlainConflict(k, x))
            && (forall c :: c in x.claims ==> PlainClaim(c, x))
            && Acyclic(Citations(SpansById(x.spans)))
  {
    forall e { PlainSpanMeans(e, t, readable, x); }
    forall l { PlainLinkMeans(l, x); }
    forall k { PlainConflictMeans(k, x); }
    forall c { PlainClaimMeans(c, x); }
    ClosedMeans(x.spans);
    if x.spans != [] {
      SpansByIdMeans(x.spans, x.spans[0].id);
      assert x.spans[0] in x.spans;
    }
  }

  lemma ClosedMeans(spans: seq<EvidenceSpan>)
    requires forall i, j :: 0 <= i < j < |spans| ==> spans[i].id != spans[j].id
    ensures Closed(Citations(SpansById(spans))) <==>
            forall e :: e in spans ==> ToSet(e.derivedFrom) <= SpansById(spans).at.Keys
  {
    ClosedSpansKnown(spans);
    var ev := SpansById(spans);
    var g := Citations(ev);
    if forall e :: e in spans ==> ToSet(e.derivedFrom) <= ev.at.Keys {
      forall k | k in g ensures !CitesUnknown(g, k) {
        SpansByIdMembers(spans, k);
        CitesUnknownMeans(g, k);
      }
    }
  }

  // ---- the checker itself ----

  method CheckSpans(
    spans: seq<EvidenceSpan>, known: set<Id>,
    raw: map<Id, string>, readable: map<Id, string>, mentions: set<Id>, activities: set<Id>
  ) returns (ok: bool)
    ensures ok <==> (forall e :: e in spans ==>
                       SpanOk(e, raw, readable, mentions, activities) && ToSet(e.derivedFrom) <= known)
  {
    for i := 0 to |spans|
      invariant forall j :: 0 <= j < i ==>
                  SpanOk(spans[j], raw, readable, mentions, activities) && ToSet(spans[j].derivedFrom) <= known
    {
      if !SpanOk(spans[i], raw, readable, mentions, activities) || !(ToSet(spans[i].derivedFrom) <= known) {
        return false;
      }
    }
    return true;
  }

  method CheckLinks(x: Extraction, ev: map<Id, EvidenceSpan>) returns (ok: bool)
    ensures ok <==> forall l :: l in x.links ==> LinkOk(l, ev, MentionIds(x.claims))
  {
    for i := 0 to |x.links|
      invariant forall j :: 0 <= j < i ==> LinkOk(x.links[j], ev, MentionIds(x.claims))
    {
      if !LinkOk(x.links[i], ev, MentionIds(x.claims)) {
        return false;
      }
    }
    return true;
  }

  method CheckConflicts(x: Extraction, ev: map<Id, EvidenceSpan>) returns (ok: bool)
    ensures ok <==> forall k :: k in x.conflicts ==> ConflictOk(k, ev, ClaimIndex(x.claims))
  {
    for i := 0 to |x.conflicts|
      invariant forall j :: 0 <= j < i ==> ConflictOk(x.conflicts[j], ev, ClaimIndex(x.claims))
    {
      if !ConflictOk(x.conflicts[i], ev, ClaimIndex(x.claims)) {
        return false;
      }
    }
    return true;
  }

  method CheckClaims(x: Extraction, ev: map<Id, EvidenceSpan>) returns (ok: bool)
    ensures ok <==> forall c :: c in x.claims ==> ClaimOk(c, x, ev)
  {
    for i := 0 to |x.claims|
      invariant forall j :: 0 <= j < i ==> ClaimOk(x.claims[j], x, ev)
    {
      if !ClaimOk(x.claims[i], x, ev) {
        return false;
      }
    }
    return true;
  }

  /** A closed ledger passes the span loop's own test of derived ids. */
  lemma ClosedSpansKnown(spans: seq<EvidenceSpan>)
    requires forall i, j :: 0 <= i < j < |spans| ==> spans[i].id != spans[j].id
    ensures var ev := SpansById(spans);
      Closed(Citations(ev)) ==> forall e :: e in spans ==> ToSet(e.derivedFrom) <= ev.at.Keys
  {
    var ev := SpansById(spans);
    var g := Citations(ev);
    if Closed(g) {
      forall e | e in spans ensures ToSet(e.derivedFrom) <= ev.at.Keys {
        SpanIsStored(spans, e);
        assert e.id in g && !CitesUnknown(g, e.id);
        CitesUnknownMeans(g, e.id);
        assert g[e.id] == e.derivedFrom && g.Keys == ev.at.Keys;
      }
    }
  }

  /** With distinct ids nothing is overwritten. */
  lemma {:induction false} SpanIsStored(spans: seq<EvidenceSpan>, e: EvidenceSpan)
    requires forall i, j :: 0 <= i < j < |spans| ==> spans[i].id != spans[j].id
    requires e in spans
    ensures e.id in SpansById(spans).at && SpansById(spans).at[e.id] == e
  {
    var front, s := spans[..|spans| - 1], spans[|spans| - 1];
    assert spans == front + [s];
    if e != s {
      SpanIsStored(front, e);
      assert e.id != s.id;
    }
  }

  /**
   * `validate_extraction_contract_v2` without the name-variant rules: the result tells whether it returns
   * without raising. The derivation check runs the filter and is exact.
   */
  method Validate(t: Transcript, readable: map<Id, string>, x: Extraction) returns (ok: bool)
    requires WellFormed(x)
    ensures ok <==> ValidContract(t, readable, x)
  {
    if !x.v2 {
      return true;
    }
    var ev := SpansById(x.spans);
    ClosedSpansKnown(x.spans);
    if x.activities == [] || (ev.at == map[] && x.claims != []) {
      return false;
    }
    var spansOk := CheckSpans(x.spans, ev.at.Keys, RawText(t), readable, MentionIds(x.claims), ToSet(x.activities));
    if !spansOk {
      return false;
    }
    var kept, issues := EvidenceDerivations.FilterEvidenceDerivations(ev);
    if issues != [] || kept.at.Keys != ev.at.Keys {
      return false;
    }
    var linksOk := CheckLinks(x, ev.at);
    if !linksOk {
      return false;
    }
    var conflictsOk := CheckConflicts(x, ev.at);
    if !conflictsOk {
      return false;
    }
    ok := CheckClaims(x, ev.at);
  }
}
