/**
 * Materializing bounded coreference (`coreference.py`, `coreference_materialization.py`): links, their evidence and
 * the relationships they support are added to an extraction.
 */
module CoreferenceAugmentation {
  import opened Common
  import opened Evidence
  import opened ClaimContract
  import opened CoreferenceContexts
  import opened TextUnits

  datatype Edge = Edge(relation: RelationType, subject: Id, subjectRole: Role, other: Id, otherRole: Role)

  datatype RelationshipClaim = RelationshipClaim(
    id: Id,
    edge: Edge,
    sources: seq<Id>,
    evidenceIds: seq<Id>,
    linkIds: seq<Id>
  )

  /** The parts of an extraction that augmentation reads or writes. */
  datatype Draft = Draft(
    links: seq<CoreferenceLink>,
    evidence: seq<EvidenceSpan>,
    relationships: seq<RelationshipClaim>
  )

  /** `linkId` stands for `link_id_for`, `safe` for `safe_id`; neither needs to be injective. */
  datatype Naming = Naming(linkId: Context -> Id, safe: string -> string)

  // ---- expected edges ----

  /** `_expected_edge` */
  function ExpectedEdge(possessor: Id, target: Id, f: KinshipFrame): Edge {
    match f.relation
    case ParentChild =>
      if f.possessor == Parent then Edge(ParentChild, possessor, Parent, target, Child)
      else Edge(ParentChild, target, Parent, possessor, Child)
    case SiblingOf =>
      if f.possessor == OlderSibling then Edge(SiblingOf, possessor, OlderSibling, target, YoungerSibling)
      else if f.relative == OlderSibling then Edge(SiblingOf, target, OlderSibling, possessor, YoungerSibling)
      else Edge(SiblingOf, possessor, Sibling, target, Sibling)
    case SpouseOf => Edge(SpouseOf, possessor, Spouse, target, Spouse)
  }

  /** `_relationship_matches_edge` */
  predicate MatchesEdge(r: Edge, e: Edge) {
    && r.relation == e.relation
    && if e.relation == SpouseOf then {r.subject, r.other} == {e.subject, e.other} else r == e
  }

  predicate Matches(r: RelationshipClaim, c: Context) {
    && c.segment in r.sources
    && exists p, t :: p in c.candidates && t in c.targets && MatchesEdge(r.edge, ExpectedEdge(p, t, c.kinship.frame))
  }

  // ---- links and evidence ----

  /** `status_for` */
  function StatusFor(c: Context): LinkStatus {
    if c.resolved then Resolved else if |c.candidates| >= 2 then Ambiguous else Unresolved
  }

  /** `_evidence_class` */
  function ClassFor(status: LinkStatus): EvidenceClass {
    if status == Resolved then DContextResolved else UUncertain
  }

  /** `ordered_segment_ids`: transcript order first, ids outside the transcript after it. */
  function OrderedSegmentIds(ids: seq<Id>, transcript: seq<Id>): (r: seq<Id>)
    ensures ToSet(r) == ToSet(ids)
    ensures Distinct(r)
  {
    var ordered := KeepOnly(transcript, ToSet(ids));
    var rest := KeepOnly(ids, ToSet(ids) - ToSet(ordered));
    var r := Dedup(ordered + rest);
    assert ToSet(ordered + rest) == ToSet(ordered) + ToSet(rest);
    assert ToSet(r) == ToSet(ids);
    r
  }

  /** `s` lists `a` before `b`. */
  ghost predicate Before(s: seq<Id>, a: Id, b: Id) {
    exists p, q :: 0 <= p < q < |s| && s[p] == a && s[q] == b
  }

  /** The elements of `r` stand in the order in which `s` lists them, those that `s` does not list last. */
  ghost predicate InOrderOf(s: seq<Id>, r: seq<Id>) {
    forall i, j :: 0 <= i < j < |r| && r[j] in s ==> Before(s, r[i], r[j])
  }

  /** `ordered_segment_ids` returns the ids in transcript order, unknown ones last. */
  lemma OrderedByTranscript(ids: seq<Id>, transcript: seq<Id>)
    requires Distinct(transcript)
    ensures InOrderOf(transcript, OrderedSegmentIds(ids, transcript))
  {
    var ordered := KeepOnly(transcript, ToSet(ids));
    var rest := KeepOnly(ids, ToSet(ids) - ToSet(ordered));
    var r := OrderedSegmentIds(ids, transcript);
    KeepOnlyProperties(transcript, ToSet(ids));
    KeepOnlyInOrder(transcript, ToSet(ids));
    DedupGrows(ordered, rest);
    forall i | |ordered| <= i < |r| ensures r[i] !in transcript {
      assert r[i] in ToSet(r);
      assert r[i] in ids;
      assert forall k :: 0 <= k < |ordered| ==> r[k] == ordered[k];
      assert r[i] !in ordered;
    }
    forall i, j | 0 <= i < j < |r| && r[j] in transcript ensures Before(transcript, r[i], r[j]) {
      assert r[i] == ordered[i] && r[j] == ordered[j];
      assert ordered[j] in ordered;
    }
  }

  lemma {:induction false} KeepOnlyInOrder(s: seq<Id>, wanted: set<Id>)
    requires Distinct(s)
    ensures InOrderOf(s, KeepOnly(s, wanted))
  {
    if s != [] {
      var tail, rest, r := s[1..], KeepOnly(s[1..], wanted), KeepOnly(s, wanted);
      KeepOnlyInOrder(tail, wanted);
      forall i, j | 0 <= i < j < |r| ensures Before(s, r[i], r[j]) {
        var shift := |r| - |rest|;
        assert r[j] == rest[j - shift] && r[j] in rest && r[j] in tail;
        if i < shift {
          var q :| 0 <= q < |tail| && tail[q] == r[j];
          assert s[0] == r[i] && s[q + 1] == r[j];
        } else {
          BeforeInTail(s, r[i], r[j]);
        }
      }
    }
  }

  lemma BeforeInTail(s: seq<Id>, a: Id, b: Id)
    requires s != [] && Before(s[1..], a, b)
    ensures Before(s, a, b)
  {
    var p, q :| 0 <= p < q < |s| - 1 && s[1..][p] == a && s[1..][q] == b;
    assert s[p + 1] == a && s[q + 1] == b;
  }

  /** `build_evidence`: the context unit and the anaphor, as exact slices of their segments. */
  function BuildEvidence(c: Context, linkId: Id, d: Discourse, safe: string -> string): (r: seq<EvidenceSpan>)
    requires c.anaphor.start <= c.anaphor.end <= |d.text(c.segment)|
    ensures |r| == 2 && r[0].id != r[1].id
  {
    var cls, mentions := ClassFor(StatusFor(c)), Dedup(c.candidates + c.targets);
    var context := "evidence_" + safe(linkId) + "_context";
    var anaphor := "evidence_" + safe(linkId) + "_anaphor";
    assert context[|context| - 1] == 't' && anaphor[|anaphor| - 1] == 'r';
    [EvidenceSpan(context, c.unit.segment, c.unit.text, RawTranscript, Some(c.unit.start), Some(c.unit.end), cls,
                  mentions, [linkId], [], None),
     EvidenceSpan(anaphor, c.segment, d.text(c.segment)[c.anaphor.start..c.anaphor.end], RawTranscript,
                  Some(c.anaphor.start), Some(c.anaphor.end), cls, mentions, [linkId], [], None)]
  }

  function SegmentsOf(c: Context, d: Discourse): seq<Id> {
    OrderedSegmentIds([c.unit.segment, c.segment], d.segments)
  }

  /** `_build_link` */
  function BuildLink(c: Context, linkId: Id, sources: seq<Id>, evidenceIds: seq<Id>): CoreferenceLink {
    CoreferenceLink(linkId, c.anaphor.surface, sources, evidenceIds, StatusFor(c), DeterministicDiscourse,
                    if StatusFor(c) == Resolved then c.candidates else [], c.candidates, Unreviewed)
  }

  // ---- relationships ----

  /** `trusted_existing_link_ids` */
  function TrustedLinkIds(links: seq<CoreferenceLink>): set<Id> {
    set l | l in links && !(l.status == Resolved && l.how != DeterministicDiscourse && l.how != HumanReview) :: l.id
  }

  /** `clean_relationship_links` */
  function CleanLinks(rs: seq<RelationshipClaim>, trusted: set<Id>): seq<RelationshipClaim> {
    seq(|rs|, i requires 0 <= i < |rs| => rs[i].(linkIds := KeepOnly(rs[i].linkIds, trusted)))
  }

  /** One relationship after `update_relationships`. */
  function Supported(r: RelationshipClaim, linkId: Id, sources: seq<Id>, evidenceIds: seq<Id>,
                     transcript: seq<Id>): RelationshipClaim
  {
    r.(sources := OrderedSegmentIds(r.sources + sources, transcript),
       evidenceIds := Dedup(r.evidenceIds + evidenceIds),
       linkIds := Dedup(r.linkIds + [linkId]))
  }

  function UpdateRelationships(rs: seq<RelationshipClaim>, matching: set<Id>, linkId: Id, sources: seq<Id>,
                               evidenceIds: seq<Id>, transcript: seq<Id>): seq<RelationshipClaim>
  {
    seq(|rs|, i requires 0 <= i < |rs| =>
          if rs[i].id in matching then Supported(rs[i], linkId, sources, evidenceIds, transcript) else rs[i])
  }

  function MatchingIds(rs: seq<RelationshipClaim>, c: Context): set<Id> {
    set r | r in rs && Matches(r, c) :: r.id
  }

  // ---- one context ----

  function EvidenceIds(spans: seq<EvidenceSpan>): set<Id> {
    set e | e in spans :: e.id
  }

  ghost predicate InRange(c: Context, d: Discourse) {
    c.anaphor.start <= c.anaphor.end <= |d.text(c.segment)|
  }

  /** One turn of the loop: the draft afterwards, or the same draft where the source continues. */
  function AddContext(x: Draft, c: Context, d: Discourse, n: Naming): Draft
    requires InRange(c, d)
  {
    var matching := MatchingIds(x.relationships, c);
    var linkId := n.linkId(c);
    var spans := BuildEvidence(c, linkId, d, n.safe);
    if StatusFor(c) != Resolved && matching == {} then x
    else if linkId in LinkIds(x.links) then x
    else if spans[0].id in EvidenceIds(x.evidence) || spans[1].id in EvidenceIds(x.evidence) then x
    else
      var ids, sources := [spans[0].id, spans[1].id], SegmentsOf(c, d);
      Draft(x.links + [BuildLink(c, linkId, sources, ids)],
            x.evidence + spans,
            UpdateRelationships(x.relationships, matching, linkId, sources, ids, d.segments))
  }

  ghost predicate AllInRange(cs: seq<Context>, d: Discourse) {
    forall c :: c in cs ==> InRange(c, d)
  }

  ghost function AddContexts(x: Draft, cs: seq<Context>, d: Discourse, n: Naming): Draft
    requires AllInRange(cs, d)
  {
    if cs == [] then x
    else
      var front, c := cs[..|cs| - 1], cs[|cs| - 1];
      assert AllInRange(front, d) && InRange(c, d);
      AddContext(AddContexts(x, front, d, n), c, d, n)
  }

  ghost function Augmented(x: Draft, cs: seq<Context>, d: Discourse, n: Naming): Draft
    requires AllInRange(cs, d)
  {
    AddContexts(x.(relationships := CleanLinks(x.relationships, TrustedLinkIds(x.links))), cs, d, n)
  }

  /** `augment_bounded_coreference` */
  method Augment(x: Draft, d: Discourse, n: Naming) returns (y: Draft, generated: nat)
    requires SoundDiscourse(d)
    ensures AllInRange(AllContexts(d, d.segments), d)
    ensures y == Augmented(x, AllContexts(d, d.segments), d, n)
    ensures generated == |y.links| - |x.links|
    ensures UniqueIds(x) ==> UniqueIds(y)
    ensures forall j :: |x.links| <= j < |y.links| ==> LinkIsJustified(y.links[j], d)
    ensures forall k :: |x.evidence| <= k < |y.evidence| ==> ExactSlice(y.evidence[k], d)
    ensures |y.relationships| == |x.relationships|
    ensures FramesFit(d) ==> forall j :: |x.links| <= j < |y.links| ==>
              SupportsExactly(x, y, j, AllContexts(d, d.segments), d, n)
    ensures FramesFit(d) ==> forall i :: 0 <= i < |x.relationships| ==>
              GainsFromLinks(x.relationships[i], y.relationships[i], y.links, |x.links|)
  {
    var relationships := CleanLinks(x.relationships, TrustedLinkIds(x.links));
    var links, evidence := x.links, x.evidence;
    var existingLinks, existingEvidence := LinkIds(links), EvidenceIds(evidence);
    ghost var start := Draft(links, evidence, relationships);
    generated := 0;
    var contexts := BoundedContexts(d);
    ContextsInRange(d, contexts);
    for i := 0 to |contexts|
      invariant AllInRange(contexts[..i], d)
      invariant Draft(links, evidence, relationships) == AddContexts(start, contexts[..i], d, n)
      invariant existingLinks == LinkIds(links) && existingEvidence == EvidenceIds(evidence)
      invariant generated == |links| - |x.links|
    {
      var c := contexts[i];
      assert c in contexts && InRange(c, d);
      AddContextsSnoc(start, contexts, d, n, i);
      var matching := MatchingIds(relationships, c);
      if StatusFor(c) != Resolved && matching == {} {
        continue;
      }
      var linkId := n.linkId(c);
      if linkId in existingLinks {
        continue;
      }
      var sources := SegmentsOf(c, d);
      var spans := BuildEvidence(c, linkId, d, n.safe);
      if spans[0].id in existingEvidence || spans[1].id in existingEvidence {
        continue;
      }
      var ids := [spans[0].id, spans[1].id];
      LinkIdsSnoc(links, BuildLink(c, linkId, sources, ids));
      EvidenceIdsPair(evidence, spans);
      links := links + [BuildLink(c, linkId, sources, ids)];
      evidence := evidence + spans;
      existingLinks := existingLinks + {linkId};
      existingEvidence := existingEvidence + {spans[0].id, spans[1].id};
      generated := generated + 1;
      if matching == {} {
        NoMatchNoUpdate(relationships, linkId, sources, ids, d.segments);
        continue;
      }
      relationships := UpdateRelationships(relationships, matching, linkId, sources, ids, d.segments);
    }
    assert contexts[..|contexts|] == contexts;
    y := Draft(links, evidence, relationships);
    if UniqueIds(x) {
      IdsStayUnique(start, contexts, d, n);
    }
    RunIsJustified(x, d, n);
    if FramesFit(d) {
      RunSupportsExactly(x, d, n);
    }
    AddContextsExtends(start, contexts, d, n);
  }

  lemma AddContextsSnoc(x: Draft, cs: seq<Context>, d: Discourse, n: Naming, i: nat)
    requires i < |cs| && AllInRange(cs, d)
    ensures AllInRange(cs[..i], d) && AllInRange(cs[..i + 1], d) && InRange(cs[i], d)
    ensures AddContexts(x, cs[..i + 1], d, n) == AddContext(AddContexts(x, cs[..i], d, n), cs[i], d, n)
  {
    assert cs[..i + 1][..i] == cs[..i] && cs[..i + 1][i] == cs[i];
    assert cs[i] in cs;
  }

  lemma NoMatchNoUpdate(rs: seq<RelationshipClaim>, linkId: Id, sources: seq<Id>, ids: seq<Id>, transcript: seq<Id>)
    ensures UpdateRelationships(rs, {}, linkId, sources, ids, transcript) == rs
  {
  }

  lemma LinkIdsSnoc(links: seq<CoreferenceLink>, l: CoreferenceLink)
    ensures LinkIds(links + [l]) == LinkIds(links) + {l.id}
  {
    assert forall k :: k in links ==> k in links + [l];
    assert l in links + [l];
  }

  lemma EvidenceIdsPair(evidence: seq<EvidenceSpan>, spans: seq<EvidenceSpan>)
    requires |spans| == 2
    ensures EvidenceIds(evidence + spans) == EvidenceIds(evidence) + {spans[0].id, spans[1].id}
  {
    assert forall e :: e in evidence + spans <==> e in evidence || e == spans[0] || e == spans[1];
  }

  // ---- what the finders and the segmentation guarantee ----

  /** Units are what `OrderedUnits` promises, and anaphors are non-empty, as matches of words are. */
  ghost predicate SoundDiscourse(d: Discourse) {
    && UnitsAreSlices(d.units, d.segments, d.text)
    && (forall s, a :: a in d.anaphors(s) ==> a.start < a.end)
  }

  /** The context unit and the anaphor are non-empty slices of known units. */
  ghost predicate SlicesOk(c: Context, d: Discourse) {
    && c.unit in d.units
    && c.anaphor.start < c.anaphor.end <= |d.text(c.segment)|
  }

  lemma ContextSlices(d: Discourse, segment: Id, a: Anaphor)
    requires SoundDiscourse(d) && a.start < a.end && ContextFor(d, segment, a).Some?
    ensures SlicesOk(ContextFor(d, segment, a).value, d)
  {
    var c := ContextFor(d, segment, a).value;
    var index := UnitIndex(d.units, segment, a).value;
    SelectedUnits(d, index, c.unit);
    assert d.units[index] in d.units;
  }

  lemma {:induction false} SegmentSlices(d: Discourse, segment: Id, anaphors: seq<Anaphor>)
    requires SoundDiscourse(d) && forall a :: a in anaphors ==> a.start < a.end
    ensures forall c :: c in ContextsOf(d, segment, anaphors) ==> SlicesOk(c, d)
  {
    if anaphors != [] {
      var a := anaphors[|anaphors| - 1];
      SegmentSlices(d, segment, anaphors[..|anaphors| - 1]);
      if ContextFor(d, segment, a).Some? {
        ContextSlices(d, segment, a);
      }
    }
  }

  lemma {:induction false} AllSlices(d: Discourse, segments: seq<Id>)
    requires SoundDiscourse(d)
    ensures forall c :: c in AllContexts(d, segments) ==> SlicesOk(c, d)
  {
    if segments != [] {
      var s := segments[|segments| - 1];
      AllSlices(d, segments[..|segments| - 1]);
      SegmentSlices(d, s, d.anaphors(s));
    }
  }

  lemma ContextsInRange(d: Discourse, contexts: seq<Context>)
    requires SoundDiscourse(d) && contexts == AllContexts(d, d.segments)
    ensures AllInRange(contexts, d)
    ensures forall c :: c in contexts ==> SlicesOk(c, d)
  {
    AllSlices(d, d.segments);
  }

  // ---- invariants of augmentation ----

  ghost predicate UniqueIds(x: Draft) {
    && (forall i, j :: 0 <= i < j < |x.links| ==> x.links[i].id != x.links[j].id)
    && (forall i, j :: 0 <= i < j < |x.evidence| ==> x.evidence[i].id != x.evidence[j].id)
  }

  /** Every relationship keeps its identity and everything it had; what it gains comes after it. */
  ghost predicate OnlyGains(a: seq<RelationshipClaim>, b: seq<RelationshipClaim>) {
    |a| == |b| && forall i :: 0 <= i < |a| ==> Gains(a[i], b[i])
  }

  ghost predicate Gains(r: RelationshipClaim, s: RelationshipClaim) {
    && s.id == r.id && s.edge == r.edge
    && ToSet(r.sources) <= ToSet(s.sources)
    && ToSet(r.evidenceIds) <= ToSet(s.evidenceIds)
    && ToSet(r.linkIds) <= ToSet(s.linkIds)
  }

  /** `b` extends `a`: nothing is removed or reordered among links and evidence, relationships only gain. */
  ghost predicate Extends(a: Draft, b: Draft) {
    && a.links <= b.links
    && a.evidence <= b.evidence
    && OnlyGains(a.relationships, b.relationships)
    && LinkIds(a.links) <= LinkIds(b.links)
    && EvidenceIds(a.evidence) <= EvidenceIds(b.evidence)
  }

  lemma GainsTransitive(a: seq<RelationshipClaim>, b: seq<RelationshipClaim>, c: seq<RelationshipClaim>)
    requires OnlyGains(a, b) && OnlyGains(b, c)
    ensures OnlyGains(a, c)
  {
    forall i | 0 <= i < |a| ensures Gains(a[i], c[i]) {
      assert Gains(a[i], b[i]) && Gains(b[i], c[i]);
    }
  }

  lemma SupportGains(r: RelationshipClaim, linkId: Id, sources: seq<Id>, ids: seq<Id>, transcript: seq<Id>)
    ensures Gains(r, Supported(r, linkId, sources, ids, transcript))
  {
    forall x | x in r.sources ensures x in ToSet(r.sources + sources) {
      assert x in r.sources + sources;
    }
    forall x | x in r.evidenceIds ensures x in ToSet(r.evidenceIds + ids) {
      assert x in r.evidenceIds + ids;
    }
    forall x | x in r.linkIds ensures x in ToSet(r.linkIds + [linkId]) {
      assert x in r.linkIds + [linkId];
    }
  }

  lemma AddContextExtends(x: Draft, c: Context, d: Discourse, n: Naming)
    requires InRange(c, d)
    ensures Extends(x, AddContext(x, c, d, n))
  {
    var y := AddContext(x, c, d, n);
    var rs := x.relationships;
    if y != x {
      var linkId := n.linkId(c);
      var spans := BuildEvidence(c, linkId, d, n.safe);
      var ids, sources, matching := [spans[0].id, spans[1].id], SegmentsOf(c, d), MatchingIds(rs, c);
      LinkIdsSnoc(x.links, BuildLink(c, linkId, sources, ids));
      EvidenceIdsPair(x.evidence, spans);
      forall i | 0 <= i < |rs| ensures Gains(rs[i], y.relationships[i]) {
        SupportGains(rs[i], linkId, sources, ids, d.segments);
      }
    }
  }

  lemma {:induction false} AddContextsExtends(x: Draft, cs: seq<Context>, d: Discourse, n: Naming)
    requires AllInRange(cs, d)
    ensures Extends(x, AddContexts(x, cs, d, n))
  {
    if cs != [] {
      var front, c := cs[..|cs| - 1], cs[|cs| - 1];
      assert AllInRange(front, d) && InRange(c, d);
      var mid := AddContexts(x, front, d, n);
      AddContextsExtends(x, front, d, n);
      AddContextExtends(mid, c, d, n);
      GainsTransitive(x.relationships, mid.relationships, AddContexts(x, cs, d, n).relationships);
    }
  }

  lemma AddContextUnique(x: Draft, c: Context, d: Discourse, n: Naming)
    requires InRange(c, d) && UniqueIds(x)
    ensures UniqueIds(AddContext(x, c, d, n))
  {
    if AddContext(x, c, d, n) != x {
      var linkId := n.linkId(c);
      var spans := BuildEvidence(c, linkId, d, n.safe);
      LinksStayUnique(x.links, BuildLink(c, linkId, SegmentsOf(c, d), [spans[0].id, spans[1].id]));
      SpansStayUnique(x.evidence, spans);
    }
  }

  lemma LinksStayUnique(links: seq<CoreferenceLink>, l: CoreferenceLink)
    requires (forall i, j :: 0 <= i < j < |links| ==> links[i].id != links[j].id) && l.id !in LinkIds(links)
    ensures var more := links + [l]; forall i, j :: 0 <= i < j < |more| ==> more[i].id != more[j].id
  {
    assert forall i :: 0 <= i < |links| ==> links[i].id in LinkIds(links);
  }

  lemma SpansStayUnique(evidence: seq<EvidenceSpan>, spans: seq<EvidenceSpan>)
    requires forall i, j :: 0 <= i < j < |evidence| ==> evidence[i].id != evidence[j].id
    requires |spans| == 2 && spans[0].id != spans[1].id
    requires spans[0].id !in EvidenceIds(evidence) && spans[1].id !in EvidenceIds(evidence)
    ensures var more := evidence + spans; forall i, j :: 0 <= i < j < |more| ==> more[i].id != more[j].id
  {
    assert forall i :: 0 <= i < |evidence| ==> evidence[i].id in EvidenceIds(evidence);
  }

  /** Link ids and evidence ids stay unique, whatever the naming functions are. */
  lemma {:induction false} IdsStayUnique(x: Draft, cs: seq<Context>, d: Discourse, n: Naming)
    requires AllInRange(cs, d) && UniqueIds(x)
    ensures UniqueIds(AddContexts(x, cs, d, n))
  {
    if cs != [] {
      var front, c := cs[..|cs| - 1], cs[|cs| - 1];
      assert AllInRange(front, d) && InRange(c, d);
      IdsStayUnique(x, front, d, n);
      AddContextUnique(AddContexts(x, front, d, n), c, d, n);
    }
  }

  /** A link id that a relationship ends up with was there before or belongs to a link added since. */
  ghost predicate Accounted(a: Draft, b: Draft) {
    && a.links <= b.links && |a.relationships| == |b.relationships|
    && forall i, l :: 0 <= i < |a.relationships| && l in b.relationships[i].linkIds ==>
         l in a.relationships[i].linkIds || AddedSince(a, b, l)
  }

  ghost predicate AddedSince(a: Draft, b: Draft, l: Id) {
    exists j :: |a.links| <= j < |b.links| && b.links[j].id == l && b.links[j].how == DeterministicDiscourse
  }

  lemma AddContextAccounted(x: Draft, c: Context, d: Discourse, n: Naming)
    requires InRange(c, d)
    ensures Accounted(x, AddContext(x, c, d, n))
  {
    var y := AddContext(x, c, d, n);
    if y != x {
      assert y.links[|x.links|].id == n.linkId(c);
      assert AddedSince(x, y, n.linkId(c));
      forall i, l | 0 <= i < |x.relationships| && l in y.relationships[i].linkIds
        ensures l in x.relationships[i].linkIds || AddedSince(x, y, l)
      {
        var r := x.relationships[i];
        if r.id in MatchingIds(x.relationships, c) {
          assert l in ToSet(r.linkIds + [n.linkId(c)]);
        }
      }
    }
  }

  lemma {:induction false} AddContextsAccounted(x: Draft, cs: seq<Context>, d: Discourse, n: Naming)
    requires AllInRange(cs, d)
    ensures Accounted(x, AddContexts(x, cs, d, n))
  {
    if cs != [] {
      var front, c := cs[..|cs| - 1], cs[|cs| - 1];
      assert AllInRange(front, d) && InRange(c, d);
      var mid, y := AddContexts(x, front, d, n), AddContexts(x, cs, d, n);
      AddContextsAccounted(x, front, d, n);
      AddContextAccounted(mid, c, d, n);
      forall l | AddedSince(x, mid, l) || AddedSince(mid, y, l) ensures AddedSince(x, y, l) {
        if AddedSince(x, mid, l) {
          var j :| |x.links| <= j < |mid.links| && mid.links[j].id == l && mid.links[j].how == DeterministicDiscourse;
          assert y.links[j] == mid.links[j];
        }
      }
      forall i, l | 0 <= i < |x.relationships| && l in y.relationships[i].linkIds
        ensures l in x.relationships[i].linkIds || AddedSince(x, y, l)
      {
        assert l in mid.relationships[i].linkIds || AddedSince(mid, y, l);
      }
    }
  }

  /** A link with this id is not resolved, or was resolved by the deterministic rules or by a person. */
  ghost predicate Trusted(links: seq<CoreferenceLink>, id: Id) {
    exists l :: l in links && l.id == id &&
                (l.status != Resolved || l.how == DeterministicDiscourse || l.how == HumanReview)
  }

  lemma TrustedMeaning(links: seq<CoreferenceLink>)
    ensures forall id :: id in TrustedLinkIds(links) <==> Trusted(links, id)
  {
    forall id ensures id in TrustedLinkIds(links) <==> Trusted(links, id) {
      if Trusted(links, id) {
        var l :| l in links && l.id == id &&
                 (l.status != Resolved || l.how == DeterministicDiscourse || l.how == HumanReview);
      }
    }
  }

  /** Relationships lose exactly their untrusted links and otherwise only gain; links and evidence are only appended. */
  lemma AugmentOnlyGains(x: Draft, cs: seq<Context>, d: Discourse, n: Naming)
    requires AllInRange(cs, d)
    ensures var y := Augmented(x, cs, d, n);
      && x.links <= y.links && x.evidence <= y.evidence && |y.relationships| == |x.relationships|
      && (forall i :: 0 <= i < |x.relationships| ==>
            var r, s := x.relationships[i], y.relationships[i];
            && s.id == r.id && s.edge == r.edge
            && ToSet(r.sources) <= ToSet(s.sources)
            && ToSet(r.evidenceIds) <= ToSet(s.evidenceIds)
            && (forall l :: l in r.linkIds && Trusted(x.links, l) ==> l in s.linkIds)
            && (forall l :: l in s.linkIds ==> (l in r.linkIds && Trusted(x.links, l)) || AddedSince(x, y, l)))
  {
    TrustedMeaning(x.links);
    var clean := x.(relationships := CleanLinks(x.relationships, TrustedLinkIds(x.links)));
    var y := Augmented(x, cs, d, n);
    AddContextsExtends(clean, cs, d, n);
    AddContextsAccounted(clean, cs, d, n);
    assert forall l :: AddedSince(clean, y, l) <==> AddedSince(x, y, l);
    forall i | 0 <= i < |x.relationships|
      ensures Gains(clean.relationships[i], y.relationships[i])
      ensures forall l :: l in x.relationships[i].linkIds && l in TrustedLinkIds(x.links) ==>
                l in y.relationships[i].linkIds
      ensures forall l :: l in y.relationships[i].linkIds ==>
                (l in x.relationships[i].linkIds && l in TrustedLinkIds(x.links)) || AddedSince(x, y, l)
    {
      GainedLinks(clean.relationships[i], y.relationships[i]);
    }
  }

  lemma GainedLinks(r: RelationshipClaim, s: RelationshipClaim)
    requires Gains(r, s)
    ensures forall l :: l in r.linkIds ==> l in s.linkIds
  {
    assert forall l :: l in r.linkIds ==> l in ToSet(s.linkIds);
  }

  // ---- evidence that augmentation adds ----

  /** Candidates and targets are known people. */
  ghost predicate KnownPeople(d: Discourse, mentions: set<Id>) {
    forall s, m :: m in d.names(s) ==> m.mention in mentions
  }

  /** Candidates and targets of a context come from the known names. */
  lemma ContextPeopleKnown(d: Discourse, c: Context, mentions: set<Id>)
    requires KnownPeople(d, mentions) && Justified(d, c)
    ensures ToSet(c.candidates) <= mentions && ToSet(c.targets) <= mentions
  {
    var index: nat :| && index < |d.units|
                      && CandidatesAre(d, c.segment, c.anaphor, index, ToSet(c.targets), c.candidates)
                      && TargetsAre(d, c.segment, c.kinship.end, d.units[index].end, c.targets);
    TargetsNamed(d, c.segment, c.kinship.end, d.units[index].end, c.targets);
    forall m | m in c.candidates ensures m in mentions {
      NamedSomewhere(d, c, index, m);
    }
  }

  lemma TargetsNamed(d: Discourse, segment: Id, kinshipEnd: nat, unitEnd: nat, targets: seq<Id>)
    requires TargetsAre(d, segment, kinshipEnd, unitEnd, targets)
    ensures forall m :: m in targets ==> exists n :: n in d.names(segment) && n.mention == m
  {
    forall m | m in targets ensures exists n :: n in d.names(segment) && n.mention == m {
      assert IsTarget(d, segment, m, kinshipEnd, unitEnd);
    }
  }

  lemma NamedSomewhere(d: Discourse, c: Context, index: nat, m: Id)
    requires index < |d.units| && m in c.candidates
    requires CandidatesAre(d, c.segment, c.anaphor, index, ToSet(c.targets), c.candidates)
    ensures exists s, n :: n in d.names(s) && n.mention == m
  {
    var lo := d.units[index].start;
    if !NamedOutside(d, c.segment, m, ToSet(c.targets), lo, c.anaphor.start) {
      var previous: TextUnit :| && IsPrevious(d, index, previous)
                                && CandidatesIn(d, previous, ToSet(c.targets), c.candidates);
      assert NamedOutside(d, previous.segment, m, ToSet(c.targets), previous.start, previous.end);
    }
  }

  /** A span added for a context is an exact slice and passes `_validate_candidate_evidence`. */
  lemma AddedEvidenceIsValid(c: Context, linkId: Id, d: Discourse, safe: string -> string, t: Transcript,
                             readable: map<Id, string>, mentions: set<Id>)
    requires SoundDiscourse(d) && SlicesOk(c, d) && InRange(c, d)
    requires ToSet(c.candidates) <= mentions && ToSet(c.targets) <= mentions
    requires c.unit.segment in RawText(t) && RawText(t)[c.unit.segment] == d.text(c.unit.segment)
    requires c.segment in RawText(t) && RawText(t)[c.segment] == d.text(c.segment)
    ensures var spans := BuildEvidence(c, linkId, d, safe);
      && ValidateCandidate(spans[0], RawText(t), readable, mentions) == None
      && ValidateCandidate(spans[1], RawText(t), readable, mentions) == None
      && spans[0].text == d.text(c.unit.segment)[c.unit.start..c.unit.end] != ""
      && spans[1].text == d.text(c.segment)[c.anaphor.start..c.anaphor.end] != ""
  {
    var spans := BuildEvidence(c, linkId, d, safe);
    SliceOccurs(d.text(c.unit.segment), c.unit.start, c.unit.end);
    SliceOccurs(d.text(c.segment), c.anaphor.start, c.anaphor.end);
    forall m | m in ToSet(Dedup(c.candidates + c.targets)) ensures m in mentions {
      assert m in ToSet(c.candidates + c.targets);
      assert m in ToSet(c.candidates) || m in ToSet(c.targets);
    }
  }

  lemma SliceOccurs(s: string, a: nat, b: nat)
    requires a <= b <= |s|
    ensures ContainsText(s, s[a..b]) && (a < b ==> Slice(s, a, b) == s[a..b])
  {
    assert OccursAt(s, s[a..b], a);
  }

  // ---- where everything that a run adds comes from ----

  /** A link and its two spans. */
  datatype Addition = Addition(link: CoreferenceLink, unit: EvidenceSpan, anaphor: EvidenceSpan)

  /** What is built for a context. */
  ghost function AdditionFor(c: Context, d: Discourse, n: Naming): Addition
    requires InRange(c, d)
  {
    var spans := BuildEvidence(c, n.linkId(c), d, n.safe);
    Addition(BuildLink(c, n.linkId(c), SegmentsOf(c, d), [spans[0].id, spans[1].id]), spans[0], spans[1])
  }

  ghost function Additions(cs: seq<Context>, d: Discourse, n: Naming): seq<Addition>
    requires AllInRange(cs, d)
  {
    if cs == [] then []
    else
      var front, last := cs[..|cs| - 1], cs[|cs| - 1];
      assert AllInRange(front, d) && InRange(last, d);
      Additions(front, d, n) + [AdditionFor(last, d, n)]
  }

  /** Link `j` of `y` and its own two spans are one of the additions. */
  ghost predicate IsAddition(x: Draft, y: Draft, j: int, additions: seq<Addition>) {
    var k := |x.evidence| + 2 * (j - |x.links|);
    && |x.links| <= j < |y.links| && k + 1 < |y.evidence|
    && Addition(y.links[j], y.evidence[k], y.evidence[k + 1]) in additions
  }

  /** What `y` adds to `x` is one link and two spans for each of some additions. */
  ghost predicate GrownBy(x: Draft, y: Draft, additions: seq<Addition>) {
    && x.links <= y.links && x.evidence <= y.evidence
    && |y.evidence| - |x.evidence| == 2 * (|y.links| - |x.links|)
    && forall j :: |x.links| <= j < |y.links| ==> IsAddition(x, y, j, additions)
  }

  /** Every added link has its own two spans, and all three are built for one of the contexts. */
  lemma {:induction false} AddsOnlyForContexts(x: Draft, cs: seq<Context>, d: Discourse, n: Naming)
    requires AllInRange(cs, d)
    ensures GrownBy(x, AddContexts(x, cs, d, n), Additions(cs, d, n))
  {
    if cs != [] {
      var front, last := cs[..|cs| - 1], cs[|cs| - 1];
      assert AllInRange(front, d) && InRange(last, d);
      var mid := AddContexts(x, front, d, n);
      AddsOnlyForContexts(x, front, d, n);
      GrownByOne(mid, last, d, n);
      GrowsOn(x, mid, AddContext(mid, last, d, n), Additions(front, d, n), AdditionFor(last, d, n));
    }
  }

  lemma GrownByOne(x: Draft, c: Context, d: Discourse, n: Naming)
    requires InRange(c, d)
    ensures var y, a := AddContext(x, c, d, n), AdditionFor(c, d, n);
      y == x || (y.links == x.links + [a.link] && y.evidence == x.evidence + [a.unit, a.anaphor])
  {
  }

  lemma GrowsOn(x: Draft, mid: Draft, y: Draft, additions: seq<Addition>, a: Addition)
    requires GrownBy(x, mid, additions)
    requires y == mid || (y.links == mid.links + [a.link] && y.evidence == mid.evidence + [a.unit, a.anaphor])
    ensures GrownBy(x, y, additions + [a])
  {
    forall j | |x.links| <= j < |y.links| ensures IsAddition(x, y, j, additions + [a]) {
      var k := |x.evidence| + 2 * (j - |x.links|);
      if j < |mid.links| {
        assert IsAddition(x, mid, j, additions);
      } else {
        assert Addition(y.links[j], y.evidence[k], y.evidence[k + 1]) == a;
      }
    }
  }

  /** A non-empty exact slice of the segment it names. */
  ghost predicate ExactSlice(e: EvidenceSpan, d: Discourse) {
    && e.start.Some? && e.end.Some?
    && e.start.value < e.end.value <= |d.text(e.segment)|
    && e.text == d.text(e.segment)[e.start.value..e.end.value]
  }

  /**
   * The link says what a justified context says: its candidates, and as its antecedents all of them or nobody. A
   * resolved singular anaphor has exactly one antecedent, and never one of the people the kinship word introduces.
   */
  ghost predicate LinkIsJustified(l: CoreferenceLink, d: Discourse) {
    exists c :: Justified(d, c) && LinkStates(l, c)
  }

  ghost predicate LinkStates(l: CoreferenceLink, c: Context) {
    && l.anaphor == c.anaphor.surface && l.candidates == c.candidates
    && l.status == (if c.resolved then Resolved else if |c.candidates| >= 2 then Ambiguous else Unresolved)
    && l.antecedents == (if c.resolved then c.candidates else [])
    && (c.resolved && c.anaphor.singular ==> |l.antecedents| == 1 && l.antecedents[0] !in c.targets)
  }

  /** Every link a run adds is justified, and every span it adds is a non-empty exact slice. */
  lemma RunIsJustified(x: Draft, d: Discourse, n: Naming)
    requires SoundDiscourse(d)
    ensures AllInRange(AllContexts(d, d.segments), d)
    ensures var y := Augmented(x, AllContexts(d, d.segments), d, n);
      && (forall j :: |x.links| <= j < |y.links| ==> LinkIsJustified(y.links[j], d))
      && (forall k :: |x.evidence| <= k < |y.evidence| ==> ExactSlice(y.evidence[k], d))
  {
    var cs := AllContexts(d, d.segments);
    ContextsInRange(d, cs);
    AllJustified(d, d.segments);
    var clean := x.(relationships := CleanLinks(x.relationships, TrustedLinkIds(x.links)));
    var y := AddContexts(clean, cs, d, n);
    AddsOnlyForContexts(clean, cs, d, n);
    AdditionsAreJustified(cs, d, n);
    EveryAddition(clean, y, Additions(cs, d, n), l => LinkIsJustified(l, d), e => ExactSlice(e, d));
  }

  /** What holds of everything built for the contexts holds of everything that was added. */
  lemma EveryAddition(x: Draft, y: Draft, additions: seq<Addition>, okLink: CoreferenceLink -> bool,
                      okSpan: EvidenceSpan -> bool)
    requires GrownBy(x, y, additions)
    requires forall a :: a in additions ==> okLink(a.link) && okSpan(a.unit) && okSpan(a.anaphor)
    ensures forall j :: |x.links| <= j < |y.links| ==> okLink(y.links[j])
    ensures forall k :: |x.evidence| <= k < |y.evidence| ==> okSpan(y.evidence[k])
  {
    forall j | |x.links| <= j < |y.links| ensures okLink(y.links[j]) {
      assert IsAddition(x, y, j, additions);
    }
    forall k | |x.evidence| <= k < |y.evidence| ensures okSpan(y.evidence[k]) {
      var half := (k - |x.evidence|) / 2;
      assert k == |x.evidence| + 2 * half || k == |x.evidence| + 2 * half + 1;
      assert IsAddition(x, y, |x.links| + half, additions);
    }
  }

  lemma {:induction false} AdditionsAreJustified(cs: seq<Context>, d: Discourse, n: Naming)
    requires AllInRange(cs, d) && SoundDiscourse(d) && forall c :: c in cs ==> Justified(d, c) && SlicesOk(c, d)
    ensures forall a :: a in Additions(cs, d, n) ==>
              LinkIsJustified(a.link, d) && ExactSlice(a.unit, d) && ExactSlice(a.anaphor, d)
  {
    if cs != [] {
      var front, last := cs[..|cs| - 1], cs[|cs| - 1];
      assert AllInRange(front, d) && InRange(last, d) && last in cs;
      AdditionsAreJustified(front, d, n);
      BuiltLinkStates(last, d, n);
      BuiltSpansAreSlices(last, n.linkId(last), d, n.safe);
    }
  }

  lemma BuiltLinkStates(c: Context, d: Discourse, n: Naming)
    requires Justified(d, c) && InRange(c, d)
    ensures LinkIsJustified(AdditionFor(c, d, n).link, d)
  {
    assert c.candidates[0] in c.candidates;
    assert LinkStates(AdditionFor(c, d, n).link, c);
  }

  lemma BuiltSpansAreSlices(c: Context, linkId: Id, d: Discourse, safe: string -> string)
    requires SoundDiscourse(d) && SlicesOk(c, d)
    ensures var spans := BuildEvidence(c, linkId, d, safe); ExactSlice(spans[0], d) && ExactSlice(spans[1], d)
  {
  }

  /**
   * A link and its two spans say what the context says, field by field: the link its people and where it was read, the
   * spans the context unit and the anaphor, as exact slices in the raw transcript.
   */
  ghost predicate SaysContext(a: Addition, c: Context, d: Discourse, n: Naming) {
    var l, name := a.link, "evidence_" + n.safe(n.linkId(c));
    && LinkStates(l, c)
    && l.id == n.linkId(c) && l.how == DeterministicDiscourse && l.verification == Unreviewed
    && l.evidenceIds == [a.unit.id, a.anaphor.id]
    && Distinct(l.sources) && (forall s :: s in l.sources <==> s == c.unit.segment || s == c.segment)
    && (Distinct(d.segments) ==> InOrderOf(d.segments, l.sources))
    && a.unit.id == name + "_context" && a.anaphor.id == name + "_anaphor"
    && SaysSlice(a.unit, c, l, c.unit.segment, c.unit.start, c.unit.end, d)
    && SaysSlice(a.anaphor, c, l, c.segment, c.anaphor.start, c.anaphor.end, d)
  }

  ghost predicate SaysSlice(e: EvidenceSpan, c: Context, l: CoreferenceLink, segment: Id, start: nat, end: nat,
                            d: Discourse)
  {
    && e.segment == segment && e.layer == RawTranscript && e.start == Some(start) && e.end == Some(end)
    && start < end <= |d.text(segment)| && e.text == d.text(segment)[start..end]
    && e.cls == (if c.resolved then DContextResolved else UUncertain)
    && e.mentions == c.candidates + c.targets
    && e.links == [l.id] && e.derivedFrom == [] && e.createdBy == None
  }

  lemma BuiltSaysContext(c: Context, d: Discourse, n: Naming)
    requires Justified(d, c) && SoundDiscourse(d) && SlicesOk(c, d)
    ensures InRange(c, d) && SaysContext(AdditionFor(c, d, n), c, d, n)
  {
    var a, people := AdditionFor(c, d, n), c.candidates + c.targets;
    assert c.candidates[0] in c.candidates;
    PeopleDistinct(d, c);
    assert a.unit.mentions == people && a.anaphor.mentions == people;
    BuiltSources(c, d);
    assert LinkStates(a.link, c);
  }

  lemma BuiltSources(c: Context, d: Discourse)
    ensures var sources := SegmentsOf(c, d);
      && Distinct(sources) && (forall s :: s in sources <==> s == c.unit.segment || s == c.segment)
      && (Distinct(d.segments) ==> InOrderOf(d.segments, sources))
  {
    var asked, sources := [c.unit.segment, c.segment], SegmentsOf(c, d);
    forall s ensures s in sources <==> s == c.unit.segment || s == c.segment {
      assert s in sources <==> s in ToSet(sources);
      assert s in ToSet(asked) <==> s in asked;
    }
    if Distinct(d.segments) {
      OrderedByTranscript(asked, d.segments);
    }
  }

  /** Candidates and targets are different people, each listed once. */
  lemma PeopleDistinct(d: Discourse, c: Context)
    requires Justified(d, c)
    ensures Distinct(c.candidates + c.targets)
  {
    var index: nat :| index < |d.units| && TargetsAre(d, c.segment, c.kinship.end, d.units[index].end, c.targets);
    forall i, j | 0 <= i < |c.candidates| && 0 <= j < |c.targets| ensures c.candidates[i] != c.targets[j] {
      assert c.candidates[i] in c.candidates && c.targets[j] in c.targets;
    }
  }

  /** The context for which an addition was built. */
  lemma {:induction false} AdditionOf(cs: seq<Context>, d: Discourse, n: Naming, a: Addition) returns (c: Context)
    requires AllInRange(cs, d) && a in Additions(cs, d, n)
    ensures c in cs && InRange(c, d) && a == AdditionFor(c, d, n)
  {
    var front, last := cs[..|cs| - 1], cs[|cs| - 1];
    assert AllInRange(front, d) && InRange(last, d) && last in cs;
    if a in Additions(front, d, n) {
      c := AdditionOf(front, d, n, a);
    } else {
      c := last;
    }
  }

  /** Link `j` with its two spans, after a draft with so many links and spans. */
  ghost function AdditionAt(y: Draft, links: nat, spans: nat, j: nat): Addition
    requires links <= j < |y.links| && spans + 2 * (j - links) + 1 < |y.evidence|
  {
    var k := spans + 2 * (j - links);
    Addition(y.links[j], y.evidence[k], y.evidence[k + 1])
  }

  lemma AdditionInGrown(x: Draft, y: Draft, additions: seq<Addition>, j: nat)
    requires GrownBy(x, y, additions) && |x.links| <= j < |y.links|
    ensures |x.evidence| + 2 * (j - |x.links|) + 1 < |y.evidence|
    ensures AdditionAt(y, |x.links|, |x.evidence|, j) in additions
  {
    assert IsAddition(x, y, j, additions);
  }

  lemma AddedForContext(x: Draft, cs: seq<Context>, d: Discourse, n: Naming, j: nat) returns (c: Context)
    requires AllInRange(cs, d) && |x.links| <= j < |AddContexts(x, cs, d, n).links|
    ensures var y := AddContexts(x, cs, d, n);
      && c in cs && InRange(c, d) && |x.evidence| + 2 * (j - |x.links|) + 1 < |y.evidence|
      && AdditionAt(y, |x.links|, |x.evidence|, j) == AdditionFor(c, d, n)
  {
    var y := AddContexts(x, cs, d, n);
    AddsOnlyForContexts(x, cs, d, n);
    AdditionInGrown(x, y, Additions(cs, d, n), j);
    c := AdditionOf(cs, d, n, AdditionAt(y, |x.links|, |x.evidence|, j));
  }

  /** Every link a run adds, together with its two spans, says field by field what a justified context says. */
  lemma RunSaysContexts(x: Draft, d: Discourse, n: Naming, j: nat) returns (c: Context)
    requires SoundDiscourse(d) && AllInRange(AllContexts(d, d.segments), d)
    requires |x.links| <= j < |Augmented(x, AllContexts(d, d.segments), d, n).links|
    ensures var y := Augmented(x, AllContexts(d, d.segments), d, n);
      && Justified(d, c) && |x.evidence| + 2 * (j - |x.links|) + 1 < |y.evidence|
      && SaysContext(AdditionAt(y, |x.links|, |x.evidence|, j), c, d, n)
  {
    var cs := AllContexts(d, d.segments);
    ContextsInRange(d, cs);
    AllJustified(d, d.segments);
    c := AddedForContext(x.(relationships := CleanLinks(x.relationships, TrustedLinkIds(x.links))), cs, d, n, j);
    BuiltSaysContext(c, d, n);
  }

  /** The discourse was read from this transcript. */
  ghost predicate ReadFrom(d: Discourse, t: Transcript) {
    forall s :: s in d.segments ==> s in RawText(t) && RawText(t)[s] == d.text(s)
  }

  /** Every span a run adds passes `_validate_candidate_evidence`. */
  lemma RunAddsValidEvidence(x: Draft, d: Discourse, n: Naming, t: Transcript, readable: map<Id, string>,
                             mentions: set<Id>)
    requires SoundDiscourse(d) && ReadFrom(d, t) && KnownPeople(d, mentions)
    ensures AllInRange(AllContexts(d, d.segments), d)
    ensures var y := Augmented(x, AllContexts(d, d.segments), d, n);
      forall k :: |x.evidence| <= k < |y.evidence| ==>
        ValidateCandidate(y.evidence[k], RawText(t), readable, mentions) == None
  {
    var cs := AllContexts(d, d.segments);
    ContextsInRange(d, cs);
    AllJustified(d, d.segments);
    ContextsFromSegments(d, d.segments);
    var clean := x.(relationships := CleanLinks(x.relationships, TrustedLinkIds(x.links)));
    var y := Augmented(x, cs, d, n);
    AddsOnlyForContexts(clean, cs, d, n);
    AdditionsAreValid(cs, d, n, t, readable, mentions);
    EveryAddition(clean, y, Additions(cs, d, n), _ => true,
                  e => ValidateCandidate(e, RawText(t), readable, mentions) == None);
  }

  lemma {:induction false} AdditionsAreValid(cs: seq<Context>, d: Discourse, n: Naming, t: Transcript,
                                             readable: map<Id, string>, mentions: set<Id>)
    requires AllInRange(cs, d) && SoundDiscourse(d) && ReadFrom(d, t) && KnownPeople(d, mentions)
    requires forall c :: c in cs ==> Justified(d, c) && SlicesOk(c, d) && c.segment in d.segments
    ensures forall a :: a in Additions(cs, d, n) ==>
              && ValidateCandidate(a.unit, RawText(t), readable, mentions) == None
              && ValidateCandidate(a.anaphor, RawText(t), readable, mentions) == None
  {
    if cs != [] {
      var front, last := cs[..|cs| - 1], cs[|cs| - 1];
      assert AllInRange(front, d) && InRange(last, d) && last in cs;
      AdditionsAreValid(front, d, n, t, readable, mentions);
      ContextPeopleKnown(d, last, mentions);
      AddedEvidenceIsValid(last, n.linkId(last), d, n.safe, t, readable, mentions);
    }
  }

  lemma {:induction false} ContextsFromSegments(d: Discourse, segments: seq<Id>)
    ensures forall c :: c in AllContexts(d, segments) ==> c.segment in segments
  {
    if segments != [] {
      var s := segments[|segments| - 1];
      ContextsFromSegments(d, segments[..|segments| - 1]);
      ContextsFromSegment(d, s, d.anaphors(s));
    }
  }

  lemma {:induction false} ContextsFromSegment(d: Discourse, segment: Id, anaphors: seq<Anaphor>)
    ensures forall c :: c in ContextsOf(d, segment, anaphors) ==> c.segment == segment
  {
    if anaphors != [] {
      ContextsFromSegment(d, segment, anaphors[..|anaphors| - 1]);
    }
  }

  // ---- which relationships a link supports ----

  /** The two roles of a kinship word are the two roles of its relation; the tables of the finders hold no others. */
  ghost predicate FrameFits(f: KinshipFrame) {
    match f.relation
    case ParentChild => (f.possessor == Parent && f.relative == Child) || (f.possessor == Child && f.relative == Parent)
    case SiblingOf =>
      || (f.possessor == OlderSibling && f.relative == YoungerSibling)
      || (f.possessor == YoungerSibling && f.relative == OlderSibling)
      || (f.possessor == Sibling && f.relative == Sibling)
    case SpouseOf => f.possessor == Spouse && f.relative == Spouse
  }

  /**
   * The relationship holds between `p`, whose relative the kinship word names, and `t`, the relative: `p` in the role
   * of the possessor, `t` in that of the relative, with the parent or the older sibling as the subject. Spouses are
   * related either way round.
   */
  ghost predicate RelatesAs(e: Edge, p: Id, t: Id, f: KinshipFrame) {
    && e.relation == f.relation
    && if f.relation == SpouseOf then (e.subject == p && e.other == t) || (e.subject == t && e.other == p)
       else if f.possessor == Parent || f.possessor == OlderSibling || f.possessor == Sibling then
         e.subject == p && e.subjectRole == f.possessor && e.other == t && e.otherRole == f.relative
       else
         e.subject == t && e.subjectRole == f.relative && e.other == p && e.otherRole == f.possessor
  }

  /** The relationship lies in the segment and relates some candidate to some target as the kinship word says. */
  ghost predicate IsSupportedBy(r: RelationshipClaim, c: Context) {
    && c.segment in r.sources
    && exists p, t :: p in c.candidates && t in c.targets && RelatesAs(r.edge, p, t, c.kinship.frame)
  }

  /** The expected edge has the possessor and the target in their roles, the parent or older sibling first. */
  lemma EdgeMeaning(e: Edge, p: Id, t: Id, f: KinshipFrame)
    requires FrameFits(f)
    ensures var x := ExpectedEdge(p, t, f);
      && x.relation == f.relation
      && ((x.subject == p && x.subjectRole == f.possessor && x.other == t && x.otherRole == f.relative) ||
          (x.subject == t && x.subjectRole == f.relative && x.other == p && x.otherRole == f.possessor))
      && x.subjectRole != Child && x.subjectRole != YoungerSibling
    ensures MatchesEdge(e, ExpectedEdge(p, t, f)) <==> RelatesAs(e, p, t, f)
  {
    if f.relation == SpouseOf {
      assert {e.subject, e.other} == {p, t} <==>
             (e.subject == p && e.other == t) || (e.subject == t && e.other == p) by {
        assert {e.subject, e.other} == {p, t} ==> p in {e.subject, e.other} && t in {e.subject, e.other} &&
                                                  e.subject in {p, t} && e.other in {p, t};
      }
    }
  }

  lemma MatchesMeaning(r: RelationshipClaim, c: Context)
    requires FrameFits(c.kinship.frame)
    ensures Matches(r, c) <==> IsSupportedBy(r, c)
  {
    forall p, t ensures MatchesEdge(r.edge, ExpectedEdge(p, t, c.kinship.frame)) <==>
                        RelatesAs(r.edge, p, t, c.kinship.frame)
    {
      EdgeMeaning(r.edge, p, t, c.kinship.frame);
    }
  }

  /** One of these relationships has the id and is supported. */
  ghost predicate SupportedId(rs: seq<RelationshipClaim>, id: Id, c: Context) {
    exists r :: r in rs && r.id == id && IsSupportedBy(r, c)
  }

  lemma MatchingMeaning(rs: seq<RelationshipClaim>, c: Context, id: Id)
    requires FrameFits(c.kinship.frame)
    ensures id in MatchingIds(rs, c) <==> SupportedId(rs, id, c)
  {
    forall r ensures Matches(r, c) <==> IsSupportedBy(r, c) {
      MatchesMeaning(r, c);
    }
  }

  /** A turn attaches its own link to the relationships that match, and no other link to any. */
  lemma TurnAttaches(x: Draft, c: Context, d: Discourse, n: Naming, i: nat, l: Id)
    requires InRange(c, d) && i < |x.relationships|
    ensures var y := AddContext(x, c, d, n);
      && |y.relationships| == |x.relationships| && y.relationships[i].id == x.relationships[i].id
      && (l in y.relationships[i].linkIds <==>
          || l in x.relationships[i].linkIds
          || (y != x && l == n.linkId(c) && x.relationships[i].id in MatchingIds(x.relationships, c)))
  {
    var r := x.relationships[i];
    assert l in Dedup(r.linkIds + [n.linkId(c)]) <==> l in ToSet(r.linkIds + [n.linkId(c)]);
  }

  /** A link is attached in the turn that adds it and in no other. */
  lemma {:induction false} AttachedOnce(x: Draft, cs: seq<Context>, d: Discourse, n: Naming, k: nat, i: nat, l: Id)
    requires AllInRange(cs, d) && k <= |cs| && AllInRange(cs[..k], d) && i < |x.relationships|
    requires l in LinkIds(AddContexts(x, cs[..k], d, n).links)
    ensures var mid, y := AddContexts(x, cs[..k], d, n), AddContexts(x, cs, d, n);
      && |mid.relationships| == |y.relationships| == |x.relationships|
      && l in LinkIds(y.links)
      && (l in y.relationships[i].linkIds <==> l in mid.relationships[i].linkIds)
  {
    AddContextsExtends(x, cs[..k], d, n);
    if k == |cs| {
      assert cs[..k] == cs;
    } else {
      var front, last := cs[..|cs| - 1], cs[|cs| - 1];
      assert AllInRange(front, d) && InRange(last, d) && front[..k] == cs[..k];
      AttachedOnce(x, front, d, n, k, i, l);
      var before := AddContexts(x, front, d, n);
      TurnAttaches(before, last, d, n, i, l);
      AddContextExtends(before, last, d, n);
    }
  }

  /** The turn in which a link was added. */
  lemma {:induction false} TurnOf(x: Draft, cs: seq<Context>, d: Discourse, n: Naming, j: nat) returns (k: nat)
    requires AllInRange(cs, d) && |x.links| <= j < |AddContexts(x, cs, d, n).links|
    ensures k < |cs| && AllInRange(cs[..k], d) && InRange(cs[k], d)
    ensures var mid := AddContexts(x, cs[..k], d, n);
      var after := AddContext(mid, cs[k], d, n);
      && after != mid && |mid.links| == j && after.links == mid.links + [AddContexts(x, cs, d, n).links[j]]
      && after.links[j].id == n.linkId(cs[k])
  {
    var front, last := cs[..|cs| - 1], cs[|cs| - 1];
    assert AllInRange(front, d) && InRange(last, d);
    var before := AddContexts(x, front, d, n);
    AddContextExtends(before, last, d, n);
    if j < |before.links| {
      k := TurnOf(x, front, d, n, j);
      assert front[..k] == cs[..k];
    } else {
      k := |cs| - 1;
    }
  }

  /** No relationship has a link that the draft does not know; cleaning the links sees to that. */
  ghost predicate LinksKnown(x: Draft) {
    forall r, l :: r in x.relationships && l in r.linkIds ==> l in LinkIds(x.links)
  }

  lemma CleanLinksKnown(x: Draft)
    ensures LinksKnown(x.(relationships := CleanLinks(x.relationships, TrustedLinkIds(x.links))))
  {
    assert TrustedLinkIds(x.links) <= LinkIds(x.links);
  }

  lemma TurnKeepsLinksKnown(x: Draft, c: Context, d: Discourse, n: Naming)
    requires LinksKnown(x) && InRange(c, d)
    ensures LinksKnown(AddContext(x, c, d, n))
  {
    var y := AddContext(x, c, d, n);
    AddContextExtends(x, c, d, n);
    forall r, l | r in y.relationships && l in r.linkIds ensures l in LinkIds(y.links) {
      var i :| 0 <= i < |y.relationships| && y.relationships[i] == r;
      TurnAttaches(x, c, d, n, i, l);
      if y != x && l == n.linkId(c) {
        LinkIdsSnoc(x.links, y.links[|x.links|]);
      } else {
        assert x.relationships[i] in x.relationships;
      }
    }
  }

  lemma {:induction false} RunKeepsLinksKnown(x: Draft, cs: seq<Context>, d: Discourse, n: Naming)
    requires LinksKnown(x) && AllInRange(cs, d)
    ensures LinksKnown(AddContexts(x, cs, d, n))
  {
    if cs != [] {
      var front, last := cs[..|cs| - 1], cs[|cs| - 1];
      assert AllInRange(front, d) && InRange(last, d);
      RunKeepsLinksKnown(x, front, d, n);
      TurnKeepsLinksKnown(AddContexts(x, front, d, n), last, d, n);
    }
  }

  /**
   * Which relationships an added link supports: exactly those that, in the draft at its turn, lie in the segment of its
   * context and relate a candidate to a target as the kinship word says. A link that is not resolved is only added if
   * there is such a relationship.
   */
  lemma LinkSupportsExactly(x: Draft, cs: seq<Context>, d: Discourse, n: Naming, j: nat) returns (k: nat)
    requires AllInRange(cs, d) && LinksKnown(x) && forall c :: c in cs ==> FrameFits(c.kinship.frame)
    requires |x.links| <= j < |AddContexts(x, cs, d, n).links|
    ensures k < |cs| && AllInRange(cs[..k], d)
    ensures var mid, y := AddContexts(x, cs[..k], d, n), AddContexts(x, cs, d, n);
      && |mid.links| == j && y.links[j].id == n.linkId(cs[k])
      && |y.relationships| == |mid.relationships| == |x.relationships|
      && (forall i :: 0 <= i < |y.relationships| ==>
            (y.links[j].id in y.relationships[i].linkIds <==>
             SupportedId(mid.relationships, y.relationships[i].id, cs[k])))
      && (!cs[k].resolved ==> exists r :: r in mid.relationships && IsSupportedBy(r, cs[k]))
  {
    k := TurnOf(x, cs, d, n, j);
    var mid, y := AddContexts(x, cs[..k], d, n), AddContexts(x, cs, d, n);
    var l, after := y.links[j].id, AddContext(mid, cs[k], d, n);
    AddContextsSnoc(x, cs, d, n, k);
    LinkIdsSnoc(mid.links, y.links[j]);
    RunKeepsLinksKnown(x, cs[..k], d, n);
    AddContextsExtends(x, cs, d, n);
    AddContextsExtends(x, cs[..k], d, n);
    assert cs[k] in cs;
    forall i | 0 <= i < |y.relationships|
      ensures l in y.relationships[i].linkIds <==> SupportedId(mid.relationships, y.relationships[i].id, cs[k])
    {
      AttachedOnce(x, cs, d, n, k + 1, i, l);
      TurnAttaches(mid, cs[k], d, n, i, l);
      MatchingMeaning(mid.relationships, cs[k], mid.relationships[i].id);
      assert mid.relationships[i] in mid.relationships;
      assert Gains(x.relationships[i], y.relationships[i]) && Gains(x.relationships[i], mid.relationships[i]);
    }
    if !cs[k].resolved {
      var id :| id in MatchingIds(mid.relationships, cs[k]);
      MatchingMeaning(mid.relationships, cs[k], id);
    }
  }

  ghost function EvidenceOf(l: CoreferenceLink): seq<Id> {
    l.evidenceIds
  }

  ghost function SourcesOf(l: CoreferenceLink): seq<Id> {
    l.sources
  }

  /** One of the links from position `from` on is named in `ids` and brings `v` along. */
  ghost predicate Brought(links: seq<CoreferenceLink>, from: nat, ids: seq<Id>, brings: CoreferenceLink -> seq<Id>,
                          v: Id)
  {
    exists j :: from <= j < |links| && links[j].id in ids && v in brings(links[j])
  }

  /** A relationship has exactly what it had and what the added links that support it bring along. */
  ghost predicate GainsFromLinks(r: RelationshipClaim, s: RelationshipClaim, links: seq<CoreferenceLink>, from: nat) {
    && (forall v :: v in s.evidenceIds <==> v in r.evidenceIds || Brought(links, from, s.linkIds, EvidenceOf, v))
    && (forall v :: v in s.sources <==> v in r.sources || Brought(links, from, s.linkIds, SourcesOf, v))
  }

  lemma BroughtByOneMore(links: seq<CoreferenceLink>, l: CoreferenceLink, from: nat, ids: seq<Id>, more: seq<Id>,
                         brings: CoreferenceLink -> seq<Id>, v: Id)
    requires from <= |links| && l.id !in LinkIds(links) && l.id !in ids
    ensures (forall k :: k in more <==> k in ids || k == l.id) ==>
              (Brought(links + [l], from, more, brings, v) <==> Brought(links, from, ids, brings, v) || v in brings(l))
    ensures Brought(links + [l], from, ids, brings, v) <==> Brought(links, from, ids, brings, v)
  {
    var all := links + [l];
    forall j | 0 <= j < |links| ensures all[j] == links[j] && all[j].id != l.id {
      assert links[j] in links;
    }
    if Brought(links, from, ids, brings, v) {
      var j :| from <= j < |links| && links[j].id in ids && v in brings(links[j]);
      assert all[j].id in ids && v in brings(all[j]);
    }
    assert all[|links|] == l;
  }

  /** The relationship with the new link. */
  ghost predicate HasNewLink(r: RelationshipClaim, s: RelationshipClaim, l: CoreferenceLink) {
    && (forall k :: k in s.linkIds <==> k in r.linkIds || k == l.id)
    && (forall v :: v in s.evidenceIds <==> v in r.evidenceIds || v in l.evidenceIds)
    && (forall v :: v in s.sources <==> v in r.sources || v in l.sources)
  }

  lemma SupportedHasLink(r: RelationshipClaim, l: CoreferenceLink, transcript: seq<Id>)
    ensures HasNewLink(r, Supported(r, l.id, l.sources, l.evidenceIds, transcript), l)
  {
    var s := Supported(r, l.id, l.sources, l.evidenceIds, transcript);
    forall k ensures k in s.linkIds <==> k in r.linkIds || k == l.id {
      assert k in s.linkIds <==> k in ToSet(r.linkIds + [l.id]);
    }
    forall v ensures v in s.evidenceIds <==> v in r.evidenceIds || v in l.evidenceIds {
      assert v in s.evidenceIds <==> v in ToSet(r.evidenceIds + l.evidenceIds);
    }
    forall v ensures v in s.sources <==> v in r.sources || v in l.sources {
      assert v in s.sources <==> v in ToSet(s.sources);
      assert v in ToSet(r.sources + l.sources) <==> v in r.sources + l.sources;
    }
  }

  lemma OneMoreLink(r: RelationshipClaim, mid: RelationshipClaim, s: RelationshipClaim, links: seq<CoreferenceLink>,
                    from: nat, l: CoreferenceLink)
    requires from <= |links| && l.id !in LinkIds(links) && l.id !in mid.linkIds
    requires GainsFromLinks(r, mid, links, from) && (s == mid || HasNewLink(mid, s, l))
    ensures GainsFromLinks(r, s, links + [l], from)
  {
    forall v
      ensures v in s.evidenceIds <==>
              v in r.evidenceIds || Brought(links + [l], from, s.linkIds, EvidenceOf, v)
    {
      BroughtByOneMore(links, l, from, mid.linkIds, s.linkIds, EvidenceOf, v);
    }
    forall v
      ensures v in s.sources <==> v in r.sources || Brought(links + [l], from, s.linkIds, SourcesOf, v)
    {
      BroughtByOneMore(links, l, from, mid.linkIds, s.linkIds, SourcesOf, v);
    }
  }

  /** After a run every relationship has exactly what it had and what the links that support it brought. */
  lemma {:induction false} RelationshipsGainExactly(x: Draft, cs: seq<Context>, d: Discourse, n: Naming, i: nat)
    requires AllInRange(cs, d) && LinksKnown(x) && i < |x.relationships|
    ensures var y := AddContexts(x, cs, d, n);
      && |y.relationships| == |x.relationships|
      && GainsFromLinks(x.relationships[i], y.relationships[i], y.links, |x.links|)
  {
    if cs != [] {
      var front, last := cs[..|cs| - 1], cs[|cs| - 1];
      assert AllInRange(front, d) && InRange(last, d);
      var mid := AddContexts(x, front, d, n);
      RelationshipsGainExactly(x, front, d, n, i);
      AddContextsExtends(x, front, d, n);
      RunKeepsLinksKnown(x, front, d, n);
      TurnGains(x.relationships[i], mid, last, d, n, i, |x.links|);
    }
  }

  lemma TurnGains(r: RelationshipClaim, mid: Draft, c: Context, d: Discourse, n: Naming, i: nat, from: nat)
    requires InRange(c, d) && LinksKnown(mid) && i < |mid.relationships| && from <= |mid.links|
    requires GainsFromLinks(r, mid.relationships[i], mid.links, from)
    ensures var y := AddContext(mid, c, d, n);
      && |y.relationships| == |mid.relationships|
      && GainsFromLinks(r, y.relationships[i], y.links, from)
  {
    var y, m := AddContext(mid, c, d, n), mid.relationships[i];
    if y != mid {
      var l := y.links[|mid.links|];
      assert m in mid.relationships;
      SupportedHasLink(m, l, d.segments);
      OneMoreLink(r, m, y.relationships[i], mid.links, from, l);
    }
  }

  /** Every context that is resolved or supports a relationship at its turn gets its link unless an id is taken. */
  lemma {:induction false} EveryTurnSettles(x: Draft, cs: seq<Context>, d: Discourse, n: Naming, k: nat)
    requires AllInRange(cs, d) && k < |cs| && AllInRange(cs[..k], d) && FrameFits(cs[k].kinship.frame)
    requires var mid := AddContexts(x, cs[..k], d, n);
      cs[k].resolved || exists r :: r in mid.relationships && IsSupportedBy(r, cs[k])
    ensures InRange(cs[k], d) && Settled(AddContexts(x, cs, d, n), cs[k], d, n)
  {
    var front, last := cs[..|cs| - 1], cs[|cs| - 1];
    assert AllInRange(front, d) && InRange(last, d);
    var before := AddContexts(x, front, d, n);
    if k == |cs| - 1 {
      if r :| r in before.relationships && IsSupportedBy(r, last) {
        MatchesMeaning(r, last);
        assert r.id in MatchingIds(before.relationships, last);
      }
      var y := AddContext(before, last, d, n);
      if y != before {
        LinkIdsSnoc(before.links, y.links[|before.links|]);
      }
    } else {
      assert front[..k] == cs[..k] && front[k] == cs[k];
      EveryTurnSettles(x, front, d, n, k);
      AddContextExtends(before, last, d, n);
    }
  }

  /** Every kinship word that the finders report has the roles of its relation. */
  ghost predicate FramesFit(d: Discourse) {
    forall s, a :: d.nearestKinship(s, a).Some? ==> FrameFits(d.nearestKinship(s, a).value.frame)
  }

  lemma {:induction false} SegmentFramesFit(d: Discourse, segment: Id, anaphors: seq<Anaphor>)
    requires FramesFit(d)
    ensures forall c :: c in ContextsOf(d, segment, anaphors) ==> FrameFits(c.kinship.frame)
  {
    if anaphors != [] {
      SegmentFramesFit(d, segment, anaphors[..|anaphors| - 1]);
    }
  }

  lemma {:induction false} AllFramesFit(d: Discourse, segments: seq<Id>)
    requires FramesFit(d)
    ensures forall c :: c in AllContexts(d, segments) ==> FrameFits(c.kinship.frame)
  {
    if segments != [] {
      var s := segments[|segments| - 1];
      AllFramesFit(d, segments[..|segments| - 1]);
      SegmentFramesFit(d, s, d.anaphors(s));
    }
  }

  /**
   * Link `j` was added at the turn of context `k`, to exactly the relationships that the context supported in the draft
   * of that turn, and for somebody if it is not resolved.
   */
  ghost predicate SupportsAtTurn(y: Draft, j: int, mid: Draft, c: Context, n: Naming) {
    && 0 <= j < |y.links| && |mid.links| == j && y.links[j].id == n.linkId(c)
    && |y.relationships| == |mid.relationships|
    && (forall i :: 0 <= i < |y.relationships| ==>
          (y.links[j].id in y.relationships[i].linkIds <==>
           SupportedId(mid.relationships, y.relationships[i].id, c)))
    && (!c.resolved ==> exists r :: r in mid.relationships && IsSupportedBy(r, c))
  }

  ghost predicate SupportsExactly(x: Draft, y: Draft, j: int, cs: seq<Context>, d: Discourse, n: Naming) {
    exists k :: 0 <= k < |cs| && AllInRange(cs[..k], d) &&
                SupportsAtTurn(y, j, Augmented(x, cs[..k], d, n), cs[k], n)
  }

  /** Every link that a run adds supports exactly the matching relationships; these gain what the link brings. */
  lemma RunSupportsExactly(x: Draft, d: Discourse, n: Naming)
    requires SoundDiscourse(d) && FramesFit(d)
    ensures AllInRange(AllContexts(d, d.segments), d)
    ensures var cs := AllContexts(d, d.segments);
      var y := Augmented(x, cs, d, n);
      && (forall j :: |x.links| <= j < |y.links| ==> SupportsExactly(x, y, j, cs, d, n))
      && |y.relationships| == |x.relationships|
      && (forall i :: 0 <= i < |x.relationships| ==>
            GainsFromLinks(x.relationships[i], y.relationships[i], y.links, |x.links|))
  {
    var cs := AllContexts(d, d.segments);
    ContextsInRange(d, cs);
    AllFramesFit(d, d.segments);
    CleanLinksKnown(x);
    var clean := x.(relationships := CleanLinks(x.relationships, TrustedLinkIds(x.links)));
    var y := Augmented(x, cs, d, n);
    forall j: nat | |x.links| <= j < |y.links| ensures SupportsExactly(x, y, j, cs, d, n) {
      var k := LinkSupportsExactly(clean, cs, d, n, j);
      assert SupportsAtTurn(y, j, Augmented(x, cs[..k], d, n), cs[k], n);
    }
    AddContextsExtends(clean, cs, d, n);
    forall i: nat | i < |x.relationships|
      ensures GainsFromLinks(x.relationships[i], y.relationships[i], y.links, |x.links|)
    {
      RelationshipsGainExactly(clean, cs, d, n, i);
    }
  }

  // ---- running twice ----

  /** Nothing more can be added for this context: its link is there, or one of its evidence ids is taken. */
  ghost predicate Settled(x: Draft, c: Context, d: Discourse, n: Naming)
    requires InRange(c, d)
  {
    var spans := BuildEvidence(c, n.linkId(c), d, n.safe);
    || n.linkId(c) in LinkIds(x.links)
    || spans[0].id in EvidenceIds(x.evidence)
    || spans[1].id in EvidenceIds(x.evidence)
  }

  lemma AddingSettles(x: Draft, c: Context, d: Discourse, n: Naming)
    requires InRange(c, d) && StatusFor(c) == Resolved
    ensures Settled(AddContext(x, c, d, n), c, d, n)
  {
    var y := AddContext(x, c, d, n);
    if y != x {
      LinkIdsSnoc(x.links, y.links[|x.links|]);
    }
  }

  lemma {:induction false} AllSettle(x: Draft, cs: seq<Context>, d: Discourse, n: Naming)
    requires AllInRange(cs, d)
    ensures forall c :: c in cs && StatusFor(c) == Resolved ==> Settled(AddContexts(x, cs, d, n), c, d, n)
  {
    if cs != [] {
      var front, last := cs[..|cs| - 1], cs[|cs| - 1];
      assert cs == front + [last] && AllInRange(front, d) && InRange(last, d);
      var mid := AddContexts(x, front, d, n);
      AllSettle(x, front, d, n);
      AddContextExtends(mid, last, d, n);
      if StatusFor(last) == Resolved {
        AddingSettles(mid, last, d, n);
      }
    }
  }

  /** From a draft in which every resolved context is settled, no resolved link is added. */
  lemma {:induction false} SettledAddsNoResolved(x: Draft, cs: seq<Context>, d: Discourse, n: Naming)
    requires AllInRange(cs, d)
    requires forall c :: c in cs && StatusFor(c) == Resolved ==> Settled(x, c, d, n)
    ensures var y := AddContexts(x, cs, d, n);
      x.links <= y.links && forall i :: |x.links| <= i < |y.links| ==> y.links[i].status != Resolved
  {
    if cs != [] {
      var front, last := cs[..|cs| - 1], cs[|cs| - 1];
      assert cs == front + [last] && AllInRange(front, d) && InRange(last, d);
      SettledAddsNoResolved(x, front, d, n);
      AddContextsExtends(x, front, d, n);
    }
  }

  lemma {:induction false} KeepOnlyAll(s: seq<Id>, wanted: set<Id>)
    requires forall x :: x in s ==> x in wanted
    ensures KeepOnly(s, wanted) == s
  {
    if s != [] {
      KeepOnlyAll(s[1..], wanted);
    }
  }

  /** Every link id left in the relationships is trusted, so cleaning the result again removes nothing. */
  lemma SecondCleanIsIdentity(x: Draft, cs: seq<Context>, d: Discourse, n: Naming)
    requires AllInRange(cs, d)
    ensures var y := Augmented(x, cs, d, n); CleanLinks(y.relationships, TrustedLinkIds(y.links)) == y.relationships
  {
    var y := Augmented(x, cs, d, n);
    AugmentOnlyGains(x, cs, d, n);
    TrustedMeaning(x.links);
    forall l | l in TrustedLinkIds(x.links) || AddedSince(x, y, l) ensures l in TrustedLinkIds(y.links) {
      if l in TrustedLinkIds(x.links) {
        var k :| && k in x.links && k.id == l
                 && !(k.status == Resolved && k.how != DeterministicDiscourse && k.how != HumanReview);
        assert k in y.links;
      } else {
        var j :| |x.links| <= j < |y.links| && y.links[j].id == l && y.links[j].how == DeterministicDiscourse;
        assert y.links[j] in y.links;
      }
    }
    forall i | 0 <= i < |y.relationships|
      ensures KeepOnly(y.relationships[i].linkIds, TrustedLinkIds(y.links)) == y.relationships[i].linkIds
    {
      KeepOnlyAll(y.relationships[i].linkIds, TrustedLinkIds(y.links));
    }
  }

  /** A second run over the first run's result adds no resolved link and takes no link from any relationship. */
  lemma SecondRunAddsNoResolved(x: Draft, cs: seq<Context>, d: Discourse, n: Naming)
    requires AllInRange(cs, d)
    ensures var y := Augmented(x, cs, d, n);
      var z := Augmented(y, cs, d, n);
      && y.links <= z.links && (forall i :: |y.links| <= i < |z.links| ==> z.links[i].status != Resolved)
      && OnlyGains(y.relationships, z.relationships)
  {
    var clean := x.(relationships := CleanLinks(x.relationships, TrustedLinkIds(x.links)));
    AllSettle(clean, cs, d, n);
    var y := Augmented(x, cs, d, n);
    var again := y.(relationships := CleanLinks(y.relationships, TrustedLinkIds(y.links)));
    SettledAddsNoResolved(again, cs, d, n);
    SecondCleanIsIdentity(x, cs, d, n);
    AddContextsExtends(again, cs, d, n);
  }
}
