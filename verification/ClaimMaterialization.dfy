/**
 * The builder of the contract (`claim_model.py`, `_materialize_item`, `_filter_coreference_links`,
 * `materialize_extraction_contract_v2`), proved against the checker of `ClaimContract`.
 */
module ClaimMaterialization {
  import opened Common
  import opened Evidence
  import opened ClaimContract
  import opened Ordering

  /** What the builder reads besides the extraction. `safe` is `_safe_id`, any function at all. */
  datatype Setting = Setting(t: Transcript, readable: map<Id, string>, safe: string -> string) {

    function Extractor(): Id { "activity_extractor_" + safe(t.recording) }

    function Sanitizer(): Id { "activity_sanitizer_" + safe(t.recording) }

    /** `_authoritative_activities`. */
    function Activities(): seq<Id> { ["activity_asr_" + safe(t.recording), Extractor(), Sanitizer()] }
  }

  function KindName(k: ClaimType): string {
    match k
    case PersonMention => "person_mention"
    case Relationship => "relationship"
    case Event => "event"
    case Description => "description"
    case Story => "story"
    case Question => "question"
  }

  function GeneratedId(ref: ClaimRef, segment: Id, safe: string -> string): Id {
    "evidence_" + KindName(ref.kind) + "_" + safe(ref.id) + "_" + safe(segment)
  }

  /** `_mention_ids_for_object`. */
  function MentionsOf(c: Claim): seq<Id> {
    if c.ref.kind == PersonMention then [c.ref.id] else c.mentions
  }

  function GeneratedSpan(c: Claim, cls: EvidenceClass, seg: Segment, s: Setting): (e: EvidenceSpan)
    ensures e.id == GeneratedId(c.ref, seg.id, s.safe) && e.segment == seg.id && e.derivedFrom == []
  {
    EvidenceSpan(GeneratedId(c.ref, seg.id, s.safe), seg.id, seg.text, RawTranscript, Some(0), Some(|seg.text|),
                 cls, Dedup(MentionsOf(c)), [], [], Some(s.Sanitizer()))
  }

  /** `_generated_evidence`: one whole-segment span for every transcript segment the claim names. */
  function GeneratedEvidence(c: Claim, cls: EvidenceClass, segments: seq<Segment>, s: Setting): seq<EvidenceSpan> {
    if segments == [] then
      []
    else
      var seg := segments[|segments| - 1];
      GeneratedEvidence(c, cls, segments[..|segments| - 1], s) +
      if seg.id in c.sources then [GeneratedSpan(c, cls, seg, s)] else []
  }

  lemma {:induction false} GeneratedEvidenceMembers(c: Claim, cls: EvidenceClass, segments: seq<Segment>, s: Setting)
    ensures forall e :: e in GeneratedEvidence(c, cls, segments, s) <==>
              exists seg :: seg in segments && seg.id in c.sources && e == GeneratedSpan(c, cls, seg, s)
  {
    if segments != [] {
      var front, seg := segments[..|segments| - 1], segments[|segments| - 1];
      assert segments == front + [seg];
      GeneratedEvidenceMembers(c, cls, front, s);
    }
  }

  /** `evidence_by_id.update(...)` */
  function PutAll(d: Ledger, spans: seq<EvidenceSpan>): (r: Ledger)
    requires KeyedById(d)
    ensures KeyedById(r)
  {
    if spans == [] then d else PutAll(d, spans[..|spans| - 1]).Put(spans[|spans| - 1].id, spans[|spans| - 1])
  }

  /** The earlier ledger is intact inside the later one. */
  ghost predicate Grown(a: map<Id, EvidenceSpan>, b: map<Id, EvidenceSpan>) {
    forall k :: k in a ==> k in b && b[k] == a[k]
  }

  lemma {:induction false} PutAllFresh(d: Ledger, spans: seq<EvidenceSpan>)
    requires KeyedById(d)
    requires forall e :: e in spans ==> e.id !in d.at
    requires forall e, f :: e in spans && f in spans && e.id == f.id ==> e == f
    ensures Grown(d.at, PutAll(d, spans).at)
    ensures forall e :: e in spans ==> e.id in PutAll(d, spans).at && PutAll(d, spans).at[e.id] == e
    ensures forall k :: k in PutAll(d, spans).at ==> k in d.at || exists e :: e in spans && e.id == k
  {
    if spans != [] {
      var front, e := spans[..|spans| - 1], spans[|spans| - 1];
      assert spans == front + [e];
      PutAllFresh(d, front);
    }
  }

  function Ids(spans: seq<EvidenceSpan>): (r: seq<Id>)
    ensures |r| == |spans|
    ensures forall i :: i in r <==> exists e :: e in spans && e.id == i
  {
    var r := seq(|spans|, i requires 0 <= i < |spans| => spans[i].id);
    assert forall e :: e in spans ==> e.id in r by {
      forall e | e in spans ensures e.id in r {
        var i :| 0 <= i < |spans| && spans[i] == e;
        assert r[i] == e.id;
      }
    }
    r
  }

  /** The claim's own ids that are known and lie inside its source segments. */
  function UsableEvidence(c: Claim, ev: map<Id, EvidenceSpan>): seq<Id> {
    Filter(c.evidenceIds, i => i in ev && ev[i].segment in c.sources)
  }

  predicate FallbackAllowed(k: ClaimType) {
    k == PersonMention || k == Relationship
  }

  predicate HasEvidence(c: Claim, ev: map<Id, EvidenceSpan>) {
    FallbackAllowed(c.ref.kind) || UsableEvidence(c, ev) != []
  }

  function DerivedClaims(c: Claim): seq<Id> {
    if c.provenance.Some? then Filter(c.provenance.value.derivedFromClaims, i => i != c.ref.id) else []
  }

  /** The claim as rebuilt around the evidence ids `ids`. */
  function Rebuilt(c: Claim, cls: EvidenceClass, ids: seq<Id>, ev: map<Id, EvidenceSpan>, links: set<Id>,
                   x: Extraction, s: Setting): Claim
  {
    c.(evidenceIds := ids,
       cls := Weakest(ids, ev, cls),
       linkIds := Filter(c.linkIds, i => i in links),
       provenance := Some(Provenance(s.t.recording, x.speakerId, x.speakerName, s.Extractor(), [s.Sanitizer()], ids,
                                     Dedup(DerivedClaims(c)))),
       status := if c.status.Some? then Some(Unreviewed) else None)
  }

  function EvidenceIssues(c: Claim, ev: map<Id, EvidenceSpan>): seq<Issue> {
    var usable := UsableEvidence(c, ev);
    var bad := ToSet(c.evidenceIds) - ToSet(usable);
    (if bad == {} then [] else [Issue(Some(c.ref.id), ObjectUnknownEvidence, Sorted(bad))]) +
    (if usable == [] && !FallbackAllowed(c.ref.kind) then [Issue(Some(c.ref.id), ObjectMissingEvidence, [])] else [])
  }

  function ReferenceIssues(c: Claim, links: set<Id>): seq<Issue> {
    var bad := ToSet(c.linkIds) - ToSet(Filter(c.linkIds, i => i in links));
    (if bad == {} then [] else [Issue(Some(c.ref.id), CoreferenceReferenceInvalid, Sorted(bad))]) +
    (if c.provenance.Some? && c.ref.id in c.provenance.value.derivedFromClaims
     then [Issue(Some(c.ref.id), DerivedClaimSelfReference, [])] else []) +
    (if Dedup(DerivedClaims(c)) != DerivedClaims(c) then [Issue(Some(c.ref.id), DerivedClaimDuplicate, [])] else [])
  }

  /** What is reported about a claim that raises nothing. */
  function TurnIssues(c: Claim, ev: map<Id, EvidenceSpan>, links: set<Id>): seq<Issue> {
    EvidenceIssues(c, ev) + if HasEvidence(c, ev) then ReferenceIssues(c, links) else []
  }

  /** What becomes of one claim; `Raised` when a record about it cannot be constructed. */
  datatype Outcome = Kept(claim: Claim) | Dropped | Raised

  /** The evidence ids of a claim and the dictionary afterwards. */
  function ChosenEvidence(c: Claim, cls: EvidenceClass, d: Ledger, s: Setting): (seq<Id>, Ledger)
    requires KeyedById(d)
  {
    var usable := UsableEvidence(c, d.at);
    if usable == [] && FallbackAllowed(c.ref.kind) then
      var generated := GeneratedEvidence(c, cls, s.t.segments, s);
      (Ids(generated), PutAll(d, generated))
    else
      (usable, d)
  }

  /** The minimum lengths that the constructor of an evidence span demands. */
  predicate Constructible(e: EvidenceSpan) {
    e.id != "" && e.segment != "" && e.text != ""
  }

  predicate AllConstructible(spans: seq<EvidenceSpan>) {
    forall e :: e in spans ==> Constructible(e)
  }

  /** The minimum lengths that the constructor of a provenance record demands, apart from its evidence. */
  predicate Creditable(x: Extraction, s: Setting) {
    s.t.recording != "" && x.speakerId != "" && x.speakerName != ""
  }

  /** `_materialize_item` generates evidence for the claim. */
  predicate Generates(c: Claim, ev: map<Id, EvidenceSpan>) {
    UsableEvidence(c, ev) == [] && FallbackAllowed(c.ref.kind)
  }

  function ItemOutcome(c: Claim, cls: EvidenceClass, d: Ledger, links: set<Id>, x: Extraction, s: Setting): Outcome
    requires KeyedById(d)
  {
    var (ids, after) := ChosenEvidence(c, cls, d, s);
    if c.ref.id == "" then Raised
    else if UsableEvidence(c, d.at) == [] && !FallbackAllowed(c.ref.kind) then Dropped
    else if Generates(c, d.at) && !AllConstructible(GeneratedEvidence(c, cls, s.t.segments, s)) then Raised
    else if ids == [] || !Creditable(x, s) then Raised
    else Kept(Rebuilt(c, cls, ids, after.at, links, x, s))
  }

  lemma DroppedIsReported(c: Claim, ev: map<Id, EvidenceSpan>)
    requires UsableEvidence(c, ev) == [] && !FallbackAllowed(c.ref.kind)
    ensures Issue(Some(c.ref.id), ObjectMissingEvidence, []) in EvidenceIssues(c, ev)
  {
    var found := EvidenceIssues(c, ev);
    assert found[|found| - 1] == Issue(Some(c.ref.id), ObjectMissingEvidence, []);
  }

  // ---- hypotheses ----

  /** A person or relationship can fall back on a known segment and names only known mentions. */
  ghost predicate Anchored(c: Claim, t: Transcript, mentions: set<Id>) {
    FallbackAllowed(c.ref.kind) ==>
      && (exists seg :: seg in t.segments && seg.id in c.sources)
      && ToSet(MentionsOf(c)) <= mentions
  }

  /** Claim `i` is a person or a relationship, the only kinds for which evidence is ever generated. */
  predicate MayGenerate(i: int, x: Extraction) {
    0 <= i < |x.claims| && FallbackAllowed(x.claims[i].ref.kind)
  }

  /** Generated ids meet neither a proposed evidence id nor each other. */
  ghost predicate NoCollisions(x: Extraction, s: Setting) {
    && (forall i, seg, e :: MayGenerate(i, x) && seg in s.t.segments && e in x.spans
          ==> GeneratedId(x.claims[i].ref, seg.id, s.safe) != e.id)
    && (forall i, j, a, b :: MayGenerate(i, x) && MayGenerate(j, x) && a in s.t.segments && b in s.t.segments
          && GeneratedId(x.claims[i].ref, a.id, s.safe) == GeneratedId(x.claims[j].ref, b.id, s.safe)
          ==> i == j && a == b)
  }

  /** None of the names that the built records need is empty. */
  ghost predicate AllNamed(x: Extraction, s: Setting) {
    && Creditable(x, s) && s.t.asrModel != "" && s.t.asrRevision != ""
    && (forall c :: c in x.claims ==> c.ref.id != "")
    && (forall seg :: seg in s.t.segments ==> seg.id != "")
  }

  ghost predicate Hypotheses(x: Extraction, s: Setting) {
    && s.t.recording == x.recording
    && AllNamed(x, s)
    && (forall c :: c in x.claims ==> Anchored(c, s.t, MentionIds(x.claims)))
    && NoCollisions(x, s)
  }

  // ---- one claim ----

  /** A rebuilt claim satisfies every rule of the checker that does not concern conflicts. */
  ghost predicate Grounded(c: Claim, ev: map<Id, EvidenceSpan>, links: set<Id>, x: Extraction, s: Setting) {
    && EvidenceBacked(c, ev)
    && c.provenance.Some?
    && ProvenanceOk(c, x.(recording := s.t.recording, activities := s.Activities()))
    && ToSet(c.linkIds) <= links
  }

  lemma RebuiltIsGrounded(c: Claim, cls: EvidenceClass, ids: seq<Id>, ev: map<Id, EvidenceSpan>, links: set<Id>,
                          x: Extraction, s: Setting)
    requires ids != [] && forall i :: i in ids ==> i in ev && ev[i].segment in c.sources
    ensures Grounded(Rebuilt(c, cls, ids, ev, links, x, s), ev, links, x, s)
  {
    var r := Rebuilt(c, cls, ids, ev, links, x, s);
    WeakestIsFixed(ids, ev, r.cls);
    assert c.ref.id !in ToSet(DerivedClaims(c));
    assert r.provenance.value.validatedBy == [s.Sanitizer()];
    assert s.Activities()[1] == s.Extractor() && s.Activities()[2] == s.Sanitizer();
    assert forall i :: i in r.linkIds ==> i in links;
    assert c.ref.id !in Dedup(DerivedClaims(c)) by {
      assert forall i :: i in Dedup(DerivedClaims(c)) ==> i in ToSet(Dedup(DerivedClaims(c)));
    }
  }

  /** The dictionary and the issue list that `_materialize_item` updates. */
  class LedgerBuilder {
    var evidence: Ledger
    var issues: seq<Issue>

    ghost predicate Valid() reads this {
      KeyedById(evidence)
    }

    constructor (evidence: Ledger, issues: seq<Issue>)
      requires KeyedById(evidence)
      ensures Valid() && this.evidence == evidence && this.issues == issues
    {
      this.evidence, this.issues := evidence, issues;
    }

    /** `valid_evidence_ids`, generating whole-segment evidence where that is allowed; `None` when that raises. */
    method ChooseEvidence(c: Claim, cls: EvidenceClass, s: Setting) returns (ids: Option<seq<Id>>)
      requires Valid()
      modifies this
      ensures Valid()
      ensures issues == old(issues) + EvidenceIssues(c, old(evidence.at))
      ensures ids.None? <==>
                Generates(c, old(evidence.at)) && !AllConstructible(GeneratedEvidence(c, cls, s.t.segments, s))
      ensures ids.Some? ==> (ids.value, evidence) == ChosenEvidence(c, cls, old(evidence), s)
    {
      var usable := UsableEvidence(c, evidence.at);
      var bad := ToSet(c.evidenceIds) - ToSet(usable);
      if bad != {} {
        issues := issues + [Issue(Some(c.ref.id), ObjectUnknownEvidence, Sorted(bad))];
      }
      if usable == [] {
        if !FallbackAllowed(c.ref.kind) {
          issues := issues + [Issue(Some(c.ref.id), ObjectMissingEvidence, [])];
          return Some([]);
        }
        var generated := GeneratedEvidence(c, cls, s.t.segments, s);
        if !AllConstructible(generated) {
          return None;
        }
        usable := Ids(generated);
        evidence := PutAll(evidence, generated);
      }
      return Some(usable);
    }

    /** Report unknown links and dubious derived claims. */
    method ReportReferences(c: Claim, links: set<Id>)
      modifies this`issues
      ensures issues == old(issues) + ReferenceIssues(c, links)
    {
      var bad := ToSet(c.linkIds) - ToSet(Filter(c.linkIds, i => i in links));
      if bad != {} {
        issues := issues + [Issue(Some(c.ref.id), CoreferenceReferenceInvalid, Sorted(bad))];
      }
      if c.provenance.Some? && c.ref.id in c.provenance.value.derivedFromClaims {
        issues := issues + [Issue(Some(c.ref.id), DerivedClaimSelfReference, [])];
      }
      if Dedup(DerivedClaims(c)) != DerivedClaims(c) {
        issues := issues + [Issue(Some(c.ref.id), DerivedClaimDuplicate, [])];
      }
    }

    /** `_materialize_item`. When it raises, what it did before is lost with the build. */
    method MaterializeItem(c: Claim, cls: EvidenceClass, links: set<Id>, x: Extraction, s: Setting)
      returns (out: Outcome)
      requires Valid()
      modifies this
      ensures Valid()
      ensures out == ItemOutcome(c, cls, old(evidence), links, x, s)
      ensures !out.Raised? ==> evidence == ChosenEvidence(c, cls, old(evidence), s).1
      ensures !out.Raised? ==> issues == old(issues) + TurnIssues(c, old(evidence.at), links)
    {
      if c.ref.id == "" {
        return Raised;
      }
      ghost var before := issues;
      var ids := ChooseEvidence(c, cls, s);
      if ids.None? {
        return Raised;
      }
      if ids.value == [] && !FallbackAllowed(c.ref.kind) {
        assert issues + [] == issues;
        return Dropped;
      }
      ghost var found := issues;
      ReportReferences(c, links);
      ReportsJoin(before, found, issues, c, old(evidence.at), links);
      if ids.value == [] || !Creditable(x, s) {
        return Raised;
      }
      out := Kept(Rebuilt(c, cls, ids.value, evidence.at, links, x, s));
    }
  }

  lemma ReportsJoin(before: seq<Issue>, found: seq<Issue>, after: seq<Issue>, c: Claim, ev: map<Id, EvidenceSpan>,
                    links: set<Id>)
    requires found == before + EvidenceIssues(c, ev) && after == found + ReferenceIssues(c, links)
    ensures HasEvidence(c, ev) ==> after == before + TurnIssues(c, ev, links)
  {
    Associates(before, EvidenceIssues(c, ev), ReferenceIssues(c, links));
  }

  lemma Associates<T>(a: seq<T>, b: seq<T>, c: seq<T>)
    ensures a + b + c == a + (b + c)
  {
  }
}
