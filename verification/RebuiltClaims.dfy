/**
 * What the builder makes of one claim (`claim_model.py`, `_materialize_item`), field by field: which evidence it keeps,
 * what is generated for it, what the rebuilt claim says and what is reported.
 */
module RebuiltClaims {
  import opened Common
  import opened Evidence
  import opened ClaimContract
  import opened ClaimMaterialization
  import opened Ordering

  // ---- what one turn does ----

  /** The dictionary has the span, and it lies in a source segment of the claim. */
  predicate Fits(e: Id, c: Claim, ledger: map<Id, EvidenceSpan>) {
    e in ledger && ledger[e].segment in c.sources
  }

  ghost predicate CitesSomething(c: Claim, ledger: map<Id, EvidenceSpan>) {
    exists e :: e in c.evidenceIds && Fits(e, c, ledger)
  }

  /** People and relationships may fall back on whole segments. */
  predicate MayFallBack(c: Claim) {
    c.ref.kind == PersonMention || c.ref.kind == Relationship
  }

  /**
   * One turn of the claim loops, from the dictionary `before` to the dictionary `after`. A claim that cites something
   * that fits keeps exactly the fitting ids, in order, and generates nothing. Another person or relationship gets one
   * whole-segment span for every transcript segment among its sources. Any other claim is lost.
   */
  ghost predicate Turn(c: Claim, inferred: EvidenceClass, before: map<Id, EvidenceSpan>, after: map<Id, EvidenceSpan>,
                       out: Option<Claim>, links: set<Id>, x: Extraction, s: Setting)
  {
    if CitesSomething(c, before) then
      && after == before && out.Some? && FieldsRebuilt(out.value, c, inferred, after, links, x, s)
      && out.value.evidenceIds == Filter(c.evidenceIds, e => Fits(e, c, before))
    else if MayFallBack(c) then
      && out.Some? && FieldsRebuilt(out.value, c, inferred, after, links, x, s)
      && WholeSegments(out.value.evidenceIds, c, inferred, before, after, s)
    else
      after == before && out.None?
  }

  /** Everything about the rebuilt claim `b` but the choice of its evidence. */
  ghost predicate FieldsRebuilt(b: Claim, c: Claim, inferred: EvidenceClass, ledger: map<Id, EvidenceSpan>,
                                links: set<Id>, x: Extraction, s: Setting)
  {
    && b.ref == c.ref && b.sources == c.sources && b.mentions == c.mentions
    && b.evidenceIds != []
    && WeakestOf(b.cls, b.evidenceIds, inferred, ledger)
    && b.linkIds == Filter(c.linkIds, l => l in links)
    && b.status == (if c.status.Some? then Some(Unreviewed) else None)
    && b.provenance.Some?
    && var p := b.provenance.value;
    && p.recording == s.t.recording && p.speakerId == x.speakerId && p.speakerName == x.speakerName
    && p.generatedBy == "activity_extractor_" + s.safe(s.t.recording)
    && p.validatedBy == ["activity_sanitizer_" + s.safe(s.t.recording)]
    && p.evidenceIds == b.evidenceIds
    && p.derivedFromClaims ==
       (if c.provenance.Some? then Dedup(Filter(c.provenance.value.derivedFromClaims, d => d != c.ref.id)) else [])
  }

  /** `cls` is at least as weak as the inferred class and every cited one, and it is one of these. */
  ghost predicate WeakestOf(cls: EvidenceClass, ids: seq<Id>, inferred: EvidenceClass, ledger: map<Id, EvidenceSpan>) {
    && cls.Rank() >= inferred.Rank()
    && (forall e :: e in ids && e in ledger ==> cls.Rank() >= ledger[e].cls.Rank())
    && (cls == inferred || exists e :: e in ids && e in ledger && cls == ledger[e].cls)
  }

  /** The ids name one span per source segment, in transcript order; of spans with one id the last one stays. */
  ghost predicate WholeSegments(ids: seq<Id>, c: Claim, inferred: EvidenceClass, before: map<Id, EvidenceSpan>,
                                after: map<Id, EvidenceSpan>, s: Setting)
  {
    var segments := Filter(s.t.segments, (g: Segment) => g.id in c.sources);
    && |ids| == |segments|
    && (forall i :: 0 <= i < |ids| ==> ids[i] == FallbackId(c, segments[i], s))
    && (forall k :: k in after <==> k in before || k in ids)
    && (forall k :: k in before && k !in ids ==> after[k] == before[k])
    && (forall i :: 0 <= i < |ids| && LastOf(ids, i) ==>
          ids[i] in after && after[ids[i]] == FallbackSpan(c, inferred, segments[i], s))
  }

  predicate LastOf(ids: seq<Id>, i: nat)
    requires i < |ids|
  {
    forall j :: i < j < |ids| ==> ids[j] != ids[i]
  }

  function FallbackId(c: Claim, g: Segment, s: Setting): Id {
    "evidence_" + (if c.ref.kind == PersonMention then "person_mention" else "relationship") + "_" +
    s.safe(c.ref.id) + "_" + s.safe(g.id)
  }

  /** The whole segment, as raw text, about the person itself or the people of the relationship. */
  function FallbackSpan(c: Claim, inferred: EvidenceClass, g: Segment, s: Setting): EvidenceSpan {
    var mentions := if c.ref.kind == PersonMention then [c.ref.id] else Dedup(c.mentions);
    EvidenceSpan(FallbackId(c, g, s), g.id, g.text, RawTranscript, Some(0), Some(|g.text|), inferred, mentions, [], [],
                 Some("activity_sanitizer_" + s.safe(s.t.recording)))
  }

  /**
   * What one turn reports, in order: the cited ids that do not fit; the loss of the claim; and for a claim that is not
   * lost its unknown links, a derivation from itself and repeated derivations.
   */
  ghost predicate Reports(note: seq<Issue>, c: Claim, before: map<Id, EvidenceSpan>, links: set<Id>) {
    var lost := !CitesSomething(c, before) && !MayFallBack(c);
    note == UnfitReport(c, before) +
            if lost then [Issue(Some(c.ref.id), ObjectMissingEvidence, [])]
            else UnknownLinkReport(c, links) + DerivationReport(c)
  }

  ghost function UnfitReport(c: Claim, before: map<Id, EvidenceSpan>): seq<Issue> {
    var unfit := set e | e in c.evidenceIds && !Fits(e, c, before);
    if unfit == {} then [] else [Issue(Some(c.ref.id), ObjectUnknownEvidence, Sorted(unfit))]
  }

  ghost function UnknownLinkReport(c: Claim, links: set<Id>): seq<Issue> {
    var unknown := set l | l in c.linkIds && l !in links;
    if unknown == {} then [] else [Issue(Some(c.ref.id), CoreferenceReferenceInvalid, Sorted(unknown))]
  }

  ghost function DerivationReport(c: Claim): seq<Issue> {
    if c.provenance.None? then []
    else
      var derived := c.provenance.value.derivedFromClaims;
      (if c.ref.id in derived then [Issue(Some(c.ref.id), DerivedClaimSelfReference, [])] else []) +
      (if Distinct(Filter(derived, d => d != c.ref.id)) then [] else [Issue(Some(c.ref.id), DerivedClaimDuplicate, [])])
  }

  // ---- the builder does that ----

  lemma UsableAreFitting(c: Claim, ledger: map<Id, EvidenceSpan>)
    ensures UsableEvidence(c, ledger) == Filter(c.evidenceIds, e => Fits(e, c, ledger))
    ensures UsableEvidence(c, ledger) != [] <==> CitesSomething(c, ledger)
  {
    FilterAgrees(c.evidenceIds, i => i in ledger && ledger[i].segment in c.sources, e => Fits(e, c, ledger));
    var usable := UsableEvidence(c, ledger);
    if usable != [] {
      assert usable[0] in usable;
    }
  }

  lemma RebuiltFields(c: Claim, inferred: EvidenceClass, ids: seq<Id>, ledger: map<Id, EvidenceSpan>, links: set<Id>,
                      x: Extraction, s: Setting)
    requires ids != []
    ensures var b := Rebuilt(c, inferred, ids, ledger, links, x, s);
      b.evidenceIds == ids && FieldsRebuilt(b, c, inferred, ledger, links, x, s)
  {
    if c.provenance.Some? {
      FilterAgrees(c.provenance.value.derivedFromClaims, i => i != c.ref.id, d => d != c.ref.id);
    } else {
      assert Dedup<Id>([]) == [];
    }
    FilterAgrees(c.linkIds, i => i in links, l => l in links);
  }

  /** The generated spans are the fallback spans of the source segments, in order. */
  lemma {:induction false} GeneratedAreFallbacks(c: Claim, inferred: EvidenceClass, segments: seq<Segment>, s: Setting)
    requires MayFallBack(c)
    ensures var spans := GeneratedEvidence(c, inferred, segments, s);
      var found := Filter(segments, (g: Segment) => g.id in c.sources);
      |spans| == |found| && forall i :: 0 <= i < |spans| ==> spans[i] == FallbackSpan(c, inferred, found[i], s)
  {
    if segments != [] {
      var front, seg := segments[..|segments| - 1], segments[|segments| - 1];
      GeneratedAreFallbacks(c, inferred, front, s);
      FilterAppend(front, seg, (g: Segment) => g.id in c.sources);
      assert segments == front + [seg];
      IsFallbackSpan(c, inferred, seg, s);
    }
  }

  lemma IsFallbackSpan(c: Claim, inferred: EvidenceClass, seg: Segment, s: Setting)
    requires MayFallBack(c)
    ensures GeneratedSpan(c, inferred, seg, s) == FallbackSpan(c, inferred, seg, s)
  {
    assert KindName(c.ref.kind) == if c.ref.kind == PersonMention then "person_mention" else "relationship";
    assert GeneratedId(c.ref, seg.id, s.safe) == FallbackId(c, seg, s);
  }

  /** Writing a list of spans into the dictionary: the last span of an id stays, everything else is as before. */
  lemma {:induction false} PutAllMeaning(d: Ledger, spans: seq<EvidenceSpan>)
    requires KeyedById(d)
    ensures var r := PutAll(d, spans).at;
      && (forall k :: k in r <==> k in d.at || k in Ids(spans))
      && (forall k :: k in d.at && k !in Ids(spans) ==> r[k] == d.at[k])
  {
    if spans != [] {
      var front, last := spans[..|spans| - 1], spans[|spans| - 1];
      PutAllMeaning(d, front);
      assert Ids(spans) == Ids(front) + [last.id];
    }
  }

  lemma {:induction false} LastStays(d: Ledger, spans: seq<EvidenceSpan>, i: nat)
    requires KeyedById(d) && i < |spans| && forall j :: i < j < |spans| ==> spans[j].id != spans[i].id
    ensures spans[i].id in PutAll(d, spans).at && PutAll(d, spans).at[spans[i].id] == spans[i]
  {
    var front := spans[..|spans| - 1];
    if i < |front| {
      assert forall j :: i < j < |front| ==> front[j] == spans[j];
      LastStays(d, front, i);
    }
  }

  lemma FallbackIsTurn(c: Claim, inferred: EvidenceClass, d: Ledger, s: Setting)
    requires KeyedById(d) && MayFallBack(c)
    ensures var spans := GeneratedEvidence(c, inferred, s.t.segments, s);
      WholeSegments(Ids(spans), c, inferred, d.at, PutAll(d, spans).at, s)
  {
    var spans := GeneratedEvidence(c, inferred, s.t.segments, s);
    GeneratedAreFallbacks(c, inferred, s.t.segments, s);
    PutAllMeaning(d, spans);
    LastOnesStay(d, spans);
  }

  lemma LastOnesStay(d: Ledger, spans: seq<EvidenceSpan>)
    requires KeyedById(d)
    ensures forall i :: 0 <= i < |spans| && LastOf(Ids(spans), i) ==>
              Ids(spans)[i] in PutAll(d, spans).at && PutAll(d, spans).at[Ids(spans)[i]] == spans[i]
  {
    var ids := Ids(spans);
    forall i | 0 <= i < |spans| && LastOf(ids, i)
      ensures ids[i] in PutAll(d, spans).at && PutAll(d, spans).at[ids[i]] == spans[i]
    {
      assert forall j :: i < j < |ids| ==> ids[j] == spans[j].id;
      LastStays(d, spans, i);
    }
  }

  /** What the builder does with a claim, unless it raises, is such a turn. */
  lemma OutcomeIsTurn(c: Claim, inferred: EvidenceClass, d: Ledger, links: set<Id>, x: Extraction, s: Setting)
    requires KeyedById(d) && !ItemOutcome(c, inferred, d, links, x, s).Raised?
    ensures var out, after := ItemOutcome(c, inferred, d, links, x, s), ChosenEvidence(c, inferred, d, s).1.at;
      Turn(c, inferred, d.at, after, if out.Kept? then Some(out.claim) else None, links, x, s)
  {
    UsableAreFitting(c, d.at);
    if CitesSomething(c, d.at) {
      KeptIsTurn(c, inferred, d, links, x, s);
    } else if MayFallBack(c) {
      FallbackOutcome(c, inferred, d, links, x, s);
    }
  }

  lemma KeptIsTurn(c: Claim, inferred: EvidenceClass, d: Ledger, links: set<Id>, x: Extraction, s: Setting)
    requires KeyedById(d) && !ItemOutcome(c, inferred, d, links, x, s).Raised? && CitesSomething(c, d.at)
    ensures var out := ItemOutcome(c, inferred, d, links, x, s);
      && ChosenEvidence(c, inferred, d, s).1 == d
      && out.Kept? && FieldsRebuilt(out.claim, c, inferred, d.at, links, x, s)
      && out.claim.evidenceIds == Filter(c.evidenceIds, e => Fits(e, c, d.at))
  {
    UsableAreFitting(c, d.at);
    RebuiltFields(c, inferred, UsableEvidence(c, d.at), d.at, links, x, s);
  }

  lemma FallbackOutcome(c: Claim, inferred: EvidenceClass, d: Ledger, links: set<Id>, x: Extraction, s: Setting)
    requires KeyedById(d) && !ItemOutcome(c, inferred, d, links, x, s).Raised?
    requires UsableEvidence(c, d.at) == [] && MayFallBack(c)
    ensures var out, after := ItemOutcome(c, inferred, d, links, x, s), ChosenEvidence(c, inferred, d, s).1.at;
      && out.Kept? && FieldsRebuilt(out.claim, c, inferred, after, links, x, s)
      && WholeSegments(out.claim.evidenceIds, c, inferred, d.at, after, s)
  {
    var (ids, after) := ChosenEvidence(c, inferred, d, s);
    FallbackIsTurn(c, inferred, d, s);
    RebuiltFields(c, inferred, ids, after.at, links, x, s);
  }

  lemma IssuesAreReport(c: Claim, ledger: map<Id, EvidenceSpan>, links: set<Id>)
    ensures Reports(TurnIssues(c, ledger, links), c, ledger, links)
  {
    EvidenceReport(c, ledger);
    ReferenceReport(c, links);
    UsableAreFitting(c, ledger);
  }

  lemma EvidenceReport(c: Claim, ledger: map<Id, EvidenceSpan>)
    ensures EvidenceIssues(c, ledger) ==
            UnfitReport(c, ledger) + if !CitesSomething(c, ledger) && !MayFallBack(c)
                                     then [Issue(Some(c.ref.id), ObjectMissingEvidence, [])] else []
  {
    UsableAreFitting(c, ledger);
    assert ToSet(c.evidenceIds) - ToSet(UsableEvidence(c, ledger)) == set e | e in c.evidenceIds && !Fits(e, c, ledger);
  }

  lemma ReferenceReport(c: Claim, links: set<Id>)
    ensures ReferenceIssues(c, links) == UnknownLinkReport(c, links) + DerivationReport(c)
  {
    assert ToSet(c.linkIds) - ToSet(Filter(c.linkIds, i => i in links)) == set l | l in c.linkIds && l !in links;
    if c.provenance.Some? {
      FilterAgrees(c.provenance.value.derivedFromClaims, i => i != c.ref.id, d => d != c.ref.id);
      DedupFixed(DerivedClaims(c));
    } else {
      assert DerivedClaims(c) == [] && Dedup<Id>([]) == [];
    }
  }

  lemma DedupFixed(s: seq<Id>)
    ensures Dedup(s) == s <==> Distinct(s)
  {
  }

  // ---- all turns ----

  /** One turn for every claim: the dictionaries between the turns and what came out of them. */
  datatype Trace = Trace(ledgers: seq<map<Id, EvidenceSpan>>, outs: seq<Option<Claim>>, notes: seq<seq<Issue>>)

  ghost predicate IsRun(r: Trace, claims: seq<Claim>, links: set<Id>, infer: Claim -> EvidenceClass, x: Extraction,
                        s: Setting)
  {
    AllTurns(r, claims, TurnTest(links, infer, x, s)) && AllNotes(r, claims, NoteTest(links))
  }

  ghost function TurnTest(links: set<Id>, infer: Claim -> EvidenceClass, x: Extraction, s: Setting)
    : (Claim, Dictionary, Dictionary, Option<Claim>) -> bool
  {
    (c: Claim, before: Dictionary, after: Dictionary, out: Option<Claim>) =>
      Turn(c, infer(c), before, after, out, links, x, s)
  }

  ghost function NoteTest(links: set<Id>): (seq<Issue>, Claim, Dictionary) -> bool {
    (note: seq<Issue>, c: Claim, before: Dictionary) => Reports(note, c, before, links)
  }

  type Dictionary = map<Id, EvidenceSpan>

  /** Every turn leads from its dictionary to the next one. */
  ghost predicate AllTurns(r: Trace, claims: seq<Claim>,
                           turn: (Claim, Dictionary, Dictionary, Option<Claim>) -> bool)
  {
    && |r.outs| == |claims| && |r.ledgers| == |claims| + 1
    && forall i :: 0 <= i < |claims| ==> turn(claims[i], r.ledgers[i], r.ledgers[i + 1], r.outs[i])
  }

  /** Every turn reports what there is to report. */
  ghost predicate AllNotes(r: Trace, claims: seq<Claim>, reports: (seq<Issue>, Claim, Dictionary) -> bool) {
    && |r.notes| == |claims| && |r.ledgers| == |claims| + 1
    && forall i :: 0 <= i < |claims| ==> reports(r.notes[i], claims[i], r.ledgers[i])
  }

  function Joined(notes: seq<seq<Issue>>): seq<Issue> {
    if notes == [] then [] else Joined(notes[..|notes| - 1]) + notes[|notes| - 1]
  }

  /** The claims that came out, in order. */
  function Present(outs: seq<Option<Claim>>): seq<Claim> {
    if outs == [] then []
    else
      var last := outs[|outs| - 1];
      Present(outs[..|outs| - 1]) + if last.Some? then [last.value] else []
  }

  lemma OneMoreTurn(r: Trace, claims: seq<Claim>, c: Claim, after: Dictionary, out: Option<Claim>, note: seq<Issue>,
                    links: set<Id>, infer: Claim -> EvidenceClass, x: Extraction, s: Setting)
    requires IsRun(r, claims, links, infer, x, s)
    requires Turn(c, infer(c), r.ledgers[|claims|], after, out, links, x, s)
    requires Reports(note, c, r.ledgers[|claims|], links)
    ensures IsRun(Trace(r.ledgers + [after], r.outs + [out], r.notes + [note]), claims + [c], links, infer, x, s)
    ensures Present(r.outs + [out]) == Present(r.outs) + if out.Some? then [out.value] else []
    ensures Joined(r.notes + [note]) == Joined(r.notes) + note
  {
    TurnsAndOne(r, claims, c, after, out, note, TurnTest(links, infer, x, s));
    NotesAndOne(r, claims, c, after, out, note, NoteTest(links));
    assert (r.outs + [out])[..|r.outs|] == r.outs && (r.notes + [note])[..|r.notes|] == r.notes;
  }

  lemma TurnsAndOne(r: Trace, claims: seq<Claim>, c: Claim, after: Dictionary, out: Option<Claim>, note: seq<Issue>,
                    turn: (Claim, Dictionary, Dictionary, Option<Claim>) -> bool)
    requires AllTurns(r, claims, turn) && turn(c, r.ledgers[|claims|], after, out)
    ensures AllTurns(Trace(r.ledgers + [after], r.outs + [out], r.notes + [note]), claims + [c], turn)
  {
  }

  lemma NotesAndOne(r: Trace, claims: seq<Claim>, c: Claim, after: Dictionary, out: Option<Claim>, note: seq<Issue>,
                    reports: (seq<Issue>, Claim, Dictionary) -> bool)
    requires AllNotes(r, claims, reports) && reports(note, c, r.ledgers[|claims|])
    ensures AllNotes(Trace(r.ledgers + [after], r.outs + [out], r.notes + [note]), claims + [c], reports)
  {
  }

  /** The turn that a claim came out of. */
  lemma {:induction false} PresentAt(outs: seq<Option<Claim>>, j: nat) returns (i: nat)
    requires j < |Present(outs)|
    ensures i < |outs| && outs[i] == Some(Present(outs)[j]) && |Present(outs[..i])| == j
  {
    var front := outs[..|outs| - 1];
    if j < |Present(front)| {
      i := PresentAt(front, j);
      assert front[..i] == outs[..i];
    } else {
      i := |outs| - 1;
    }
  }

  /**
   * Claim `j` of the result is proposed claim `i`, the proposed claims before it having given the claims before `j`.
   * Every id it cites that fits at its turn is kept, in order; if there is one, nothing else is; otherwise its evidence
   * is exactly the fallback spans of its source segments. Its class is at least as weak as each piece of its evidence.
   */
  lemma KeepsWhatFits(r: Trace, claims: seq<Claim>, links: set<Id>, infer: Claim -> EvidenceClass, x: Extraction,
                      s: Setting, j: nat) returns (i: nat)
    requires IsRun(r, claims, links, infer, x, s) && j < |Present(r.outs)|
    ensures i < |claims| && |Present(r.outs[..i])| == j
    ensures var b, c, before, after := Present(r.outs)[j], claims[i], r.ledgers[i], r.ledgers[i + 1];
      && b.ref == c.ref
      && (forall e :: e in c.evidenceIds && e in before && before[e].segment in c.sources ==> e in b.evidenceIds)
      && ((exists e :: e in c.evidenceIds && e in before && before[e].segment in c.sources) ==>
            b.evidenceIds == Filter(c.evidenceIds, e => e in before && before[e].segment in c.sources))
      && ((forall e :: e in c.evidenceIds && e in before ==> before[e].segment !in c.sources) ==>
            && (c.ref.kind == PersonMention || c.ref.kind == Relationship)
            && b.evidenceIds == FallbackIds(c, s))
      && (forall e :: e in b.evidenceIds && e in after ==> b.cls.Rank() >= after[e].cls.Rank())
      && b.cls.Rank() >= infer(c).Rank()
      && b.linkIds == Filter(c.linkIds, l => l in links)
  {
    i := PresentAt(r.outs, j);
    var b, c, before, after := Present(r.outs)[j], claims[i], r.ledgers[i], r.ledgers[i + 1];
    assert TurnTest(links, infer, x, s)(c, before, after, r.outs[i]);
    FilterAgrees(c.evidenceIds, e => Fits(e, c, before), e => e in before && before[e].segment in c.sources);
    FilterAgrees(c.linkIds, i => i in links, l => l in links);
    if !CitesSomething(c, before) {
      FallbackIdsMeaning(c, s, b.evidenceIds, infer(c), before, after);
    }
  }

  /** The ids of the fallback spans, in transcript order. */
  function FallbackIds(c: Claim, s: Setting): seq<Id> {
    var segments := Filter(s.t.segments, (g: Segment) => g.id in c.sources);
    seq(|segments|, k requires 0 <= k < |segments| => FallbackId(c, segments[k], s))
  }

  lemma FallbackIdsMeaning(c: Claim, s: Setting, ids: seq<Id>, inferred: EvidenceClass, before: Dictionary,
                           after: Dictionary)
    requires WholeSegments(ids, c, inferred, before, after, s)
    ensures ids == FallbackIds(c, s)
  {
  }
}
