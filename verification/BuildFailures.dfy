/**
 * Exactly when `materialize_extraction_contract_v2` raises: which records it cannot construct, said about the
 * extraction, the transcript and the spans that survive the derivation filter.
 */
module BuildFailures {
  import opened Common
  import opened Evidence
  import opened ClaimContract
  import opened ClaimLoop
  import opened ClaimMaterialization
  import opened ContractAssembly

  predicate NamesSegment(c: Claim, t: Transcript) {
    exists seg :: seg in t.segments && seg.id in c.sources
  }

  predicate NamesEmptySegment(c: Claim, t: Transcript) {
    exists seg :: seg in t.segments && seg.id in c.sources && seg.id == ""
  }

  /**
   * What makes the build raise whatever the order of the claims: an activity or a claim without a name, a person or
   * relationship without a transcript segment, or an unnamed recording or speaker while anything survives.
   */
  ghost predicate Blocked(x: Extraction, s: Setting) {
    !ActivitiesOk(s) || ClaimsBlocked(x, s, KeptLedger(x, s))
  }

  ghost predicate ClaimsBlocked(x: Extraction, s: Setting, kept: Ledger) {
    || (exists c :: c in x.claims && c.ref.id == "")
    || (exists c :: c in x.claims && FallbackAllowed(c.ref.kind) && !NamesSegment(c, s.t))
    || (!Creditable(x, s) && exists c :: c in x.claims && HasEvidence(c, kept.at))
  }

  /** The claim loops over a filtered ledger and accepted links. */
  datatype Loop = Loop(kept: Ledger, links: set<Id>, infer: Claim -> EvidenceClass, x: Extraction, s: Setting) {

    ghost predicate Valid() {
      KeyedById(kept) && InTranscript(kept.at, s.t) && WellFormedTranscript(s.t)
    }

    /** The build when the turn of claim `i` comes. */
    ghost function At(i: nat): (b: Build)
      requires i <= |x.claims| && KeyedById(kept)
      ensures KeyedById(b.ledger)
    {
      BuildKeyed(i, kept, links, infer, x, s);
      BuildClaims(i, kept, links, infer, x, s)
    }

    ghost function Next(b: Build, c: Claim): Build
      requires KeyedById(b.ledger)
    {
      if b.raised then b else BuildOne(b, c, links, infer, x, s)
    }

    /** The turn of claim `i` raises. */
    ghost predicate TurnRaises(i: nat)
      requires i < |x.claims| && KeyedById(kept)
    {
      ItemOutcome(x.claims[i], infer(x.claims[i]), At(i).ledger, links, x, s).Raised?
    }

    /** Evidence would be generated for a segment whose id is empty. */
    ghost predicate MeetsEmptySegment(i: nat)
      requires i < |x.claims| && KeyedById(kept)
    {
      Generates(x.claims[i], At(i).ledger.at) && NamesEmptySegment(x.claims[i], s.t)
    }
  }

  ghost function LoopOf(x: Extraction, s: Setting, infer: Claim -> EvidenceClass, named: CoreferenceLink -> bool)
    : (r: Loop)
    ensures KeyedById(r.kept)
  {
    Loop(KeptLedger(x, s), LinkIds(ContractLinks(x, s, named)), infer, x, s)
  }

  // ---- one claim ----

  /** Every span lies in a segment of the transcript. */
  ghost predicate InTranscript(ev: map<Id, EvidenceSpan>, t: Transcript) {
    forall k :: k in ev ==> SegmentOf(ev[k], t)
  }

  ghost predicate SegmentOf(e: EvidenceSpan, t: Transcript) {
    exists seg :: seg in t.segments && seg.id == e.segment
  }

  /** Exactly when one claim makes the build raise. */
  lemma ItemRaises(c: Claim, cls: EvidenceClass, d: Ledger, links: set<Id>, x: Extraction, s: Setting)
    requires KeyedById(d) && WellFormedTranscript(s.t) && InTranscript(d.at, s.t)
    ensures ItemOutcome(c, cls, d, links, x, s).Raised? <==>
            || c.ref.id == ""
            || (FallbackAllowed(c.ref.kind) && !NamesSegment(c, s.t))
            || (HasEvidence(c, d.at) && !Creditable(x, s))
            || (Generates(c, d.at) && NamesEmptySegment(c, s.t))
  {
    if Generates(c, d.at) {
      GenerationFails(c, cls, s);
    } else if UsableEvidence(c, d.at) != [] {
      UsableNamesSegment(c, d.at, s.t);
    }
  }

  lemma UsableNamesSegment(c: Claim, ev: map<Id, EvidenceSpan>, t: Transcript)
    requires InTranscript(ev, t) && UsableEvidence(c, ev) != []
    ensures NamesSegment(c, t)
  {
    UsableMeans(c, ev);
    var e :| e in c.evidenceIds && e in ev && ev[e].segment in c.sources;
    assert SegmentOf(ev[e], t);
  }

  lemma GenerationFails(c: Claim, cls: EvidenceClass, s: Setting)
    requires WellFormedTranscript(s.t)
    ensures var spans := GeneratedEvidence(c, cls, s.t.segments, s);
      && (Ids(spans) == [] <==> !NamesSegment(c, s.t))
      && (AllConstructible(spans) <==> !NamesEmptySegment(c, s.t))
  {
    var spans := GeneratedEvidence(c, cls, s.t.segments, s);
    GeneratedEvidenceMembers(c, cls, s.t.segments, s);
    if seg :| seg in s.t.segments && seg.id in c.sources {
      assert GeneratedSpan(c, cls, seg, s) in spans;
    }
    if spans != [] {
      assert spans[0] in spans;
    }
    forall e | e in spans ensures Constructible(e) <==> e.segment != "" {
      var seg :| seg in s.t.segments && seg.id in c.sources && e == GeneratedSpan(c, cls, seg, s);
      GeneratedIdNotEmpty(c.ref, seg.id, s.safe);
    }
    forall seg | seg in s.t.segments && seg.id in c.sources ensures GeneratedSpan(c, cls, seg, s) in spans {
    }
  }

  // ---- the ledger while claims are built ----

  lemma {:induction false} PutAllMembers(d: Ledger, spans: seq<EvidenceSpan>, t: Transcript)
    requires KeyedById(d) && InTranscript(d.at, t) && forall e :: e in spans ==> SegmentOf(e, t)
    ensures InTranscript(PutAll(d, spans).at, t)
  {
    if spans != [] {
      PutAllMembers(d, spans[..|spans| - 1], t);
    }
  }

  lemma ItemStaysInTranscript(c: Claim, cls: EvidenceClass, d: Ledger, s: Setting)
    requires KeyedById(d) && InTranscript(d.at, s.t)
    ensures InTranscript(ChosenEvidence(c, cls, d, s).1.at, s.t)
  {
    var spans := GeneratedEvidence(c, cls, s.t.segments, s);
    GeneratedEvidenceMembers(c, cls, s.t.segments, s);
    forall e | e in spans ensures SegmentOf(e, s.t) {
      var seg :| seg in s.t.segments && seg.id in c.sources && e == GeneratedSpan(c, cls, seg, s);
    }
    PutAllMembers(d, spans, s.t);
  }

  lemma KeptInTranscript(x: Extraction, s: Setting)
    ensures InTranscript(KeptLedger(x, s).at, s.t)
  {
    KeptWereProposed(x, s);
    forall k | k in KeptLedger(x, s).at ensures SegmentOf(KeptLedger(x, s).at[k], s.t) {
      assert KeptLedger(x, s).at[k].segment in RawText(s.t).Keys;
    }
  }

  lemma NextInTranscript(r: Loop, b: Build, c: Claim)
    requires KeyedById(b.ledger) && InTranscript(b.ledger.at, r.s.t)
    ensures InTranscript(r.Next(b, c).ledger.at, r.s.t)
  {
    ItemStaysInTranscript(c, r.infer(c), b.ledger, r.s);
  }

  lemma LedgerInTranscript(r: Loop, i: nat)
    requires i <= |r.x.claims| && r.Valid()
    ensures InTranscript(r.At(i).ledger.at, r.s.t)
  {
    var inv := (b: Build) => KeyedById(b.ledger) && InTranscript(b.ledger.at, r.s.t);
    var step := BuildStep(r.links, r.infer, r.x, r.s);
    forall b, c | c in r.x.claims && inv(b) && !b.raised ensures inv(step(b, c)) {
      OneKeyed(b, c, r.links, r.infer, r.x, r.s);
      NextInTranscript(r, b, c);
    }
    FoldKeeps(i, Build([], r.kept, false), r.x.claims, step, inv);
  }

  /** Without people and relationships nothing is ever generated. */
  lemma NothingGenerated(r: Loop, i: nat)
    requires i <= |r.x.claims| && KeyedById(r.kept)
    requires forall c :: c in r.x.claims ==> !FallbackAllowed(c.ref.kind)
    ensures r.At(i).ledger == r.kept
  {
    var inv, step := (b: Build) => b.ledger == r.kept, BuildStep(r.links, r.infer, r.x, r.s);
    forall b, c | c in r.x.claims && inv(b) && !b.raised ensures inv(step(b, c)) {
    }
    FoldKeeps(i, Build([], r.kept, false), r.x.claims, step, inv);
  }

  // ---- the whole build ----

  /** After the first turn that raises nothing is built any more. */
  ghost predicate SomeTurnRaises(r: Loop)
    requires KeyedById(r.kept)
  {
    exists i :: 0 <= i < |r.x.claims| && r.TurnRaises(i)
  }

  /** A build raises exactly when some turn does. */
  lemma BuildRaises(r: Loop)
    requires KeyedById(r.kept)
    ensures r.At(|r.x.claims|).raised <==> SomeTurnRaises(r)
  {
    var start, step := Build([], r.kept, false), BuildStep(r.links, r.infer, r.x, r.s);
    var raises := (i: int) => 0 <= i < |r.x.claims| && r.TurnRaises(i);
    forall k: nat | k < |r.x.claims| ensures Decides(k, start, r.x.claims, step, raises) {
      assert KeyedById(r.At(k).ledger);
    }
    FoldRaises(|r.x.claims|, start, r.x.claims, step, raises);
    if i :| 0 <= i < |r.x.claims| && raises(i) {
      assert r.TurnRaises(i);
    }
    if i :| 0 <= i < |r.x.claims| && r.TurnRaises(i) {
      assert raises(i);
    }
  }

  /** Why the turn of claim `i` raises. */
  lemma TurnReasons(r: Loop, i: nat)
    requires i < |r.x.claims| && r.Valid()
    ensures var c := r.x.claims[i];
      r.TurnRaises(i) <==>
      || c.ref.id == ""
      || (FallbackAllowed(c.ref.kind) && !NamesSegment(c, r.s.t))
      || (HasEvidence(c, r.At(i).ledger.at) && !Creditable(r.x, r.s))
      || r.MeetsEmptySegment(i)
  {
    var c := r.x.claims[i];
    LedgerInTranscript(r, i);
    ItemRaises(c, r.infer(c), r.At(i).ledger, r.links, r.x, r.s);
  }

  /** A turn that raises has one of the reasons. */
  lemma RaisingTurnIsBlocked(r: Loop, i: nat)
    requires i < |r.x.claims| && r.Valid() && r.TurnRaises(i)
    ensures ClaimsBlocked(r.x, r.s, r.kept) || r.MeetsEmptySegment(i)
  {
    var c := r.x.claims[i];
    assert c in r.x.claims;
    TurnReasons(r, i);
    if !Creditable(r.x, r.s) && HasEvidence(c, r.At(i).ledger.at) {
      if f :| f in r.x.claims && FallbackAllowed(f.ref.kind) {
        assert HasEvidence(f, r.kept.at);
      } else {
        NothingGenerated(r, i);
      }
    }
  }

  /** Every reason makes some turn raise. */
  lemma BlockedTurn(r: Loop)
    requires r.Valid() && ClaimsBlocked(r.x, r.s, r.kept)
    ensures SomeTurnRaises(r)
  {
    if c :| c in r.x.claims && (c.ref.id == "" || (FallbackAllowed(c.ref.kind) && !NamesSegment(c, r.s.t))) {
      var i :| 0 <= i < |r.x.claims| && r.x.claims[i] == c;
      TurnReasons(r, i);
    } else if f :| f in r.x.claims && FallbackAllowed(f.ref.kind) {
      var i :| 0 <= i < |r.x.claims| && r.x.claims[i] == f;
      TurnReasons(r, i);
    } else {
      var c :| c in r.x.claims && HasEvidence(c, r.kept.at);
      var i :| 0 <= i < |r.x.claims| && r.x.claims[i] == c;
      NothingGenerated(r, i);
      TurnReasons(r, i);
    }
  }

  /** Exactly when the claim loops raise. */
  lemma LoopRaises(r: Loop)
    requires r.Valid()
    ensures r.At(|r.x.claims|).raised <==>
            ClaimsBlocked(r.x, r.s, r.kept) || exists i :: 0 <= i < |r.x.claims| && r.MeetsEmptySegment(i)
  {
    BuildRaises(r);
    if i :| 0 <= i < |r.x.claims| && r.MeetsEmptySegment(i) {
      TurnReasons(r, i);
    }
    if ClaimsBlocked(r.x, r.s, r.kept) {
      BlockedTurn(r);
    }
    if i :| 0 <= i < |r.x.claims| && r.TurnRaises(i) {
      RaisingTurnIsBlocked(r, i);
    }
  }

  /**
   * Exactly when the builder raises, for every extraction. The last reason needs a transcript segment with an empty
   * id; without one the condition does not mention the run.
   */
  lemma FailsExactly(x: Extraction, s: Setting, infer: Claim -> EvidenceClass, named: CoreferenceLink -> bool)
    requires WellFormedTranscript(s.t)
    ensures var r := LoopOf(x, s, infer, named);
      Contract(x, s, infer, named).None? <==>
      Blocked(x, s) || exists i :: 0 <= i < |x.claims| && r.MeetsEmptySegment(i)
    ensures (forall seg :: seg in s.t.segments ==> seg.id != "") ==>
              (Contract(x, s, infer, named).None? <==> Blocked(x, s))
  {
    KeptInTranscript(x, s);
    LoopRaises(LoopOf(x, s, infer, named));
  }

  /** The names that every build needs. */
  ghost predicate Unnamed(x: Extraction, s: Setting) {
    s.t.recording == "" || x.speakerId == "" || x.speakerName == ""
  }

  /** A person or a relationship, or a claim that cites a kept span inside its own segments. */
  ghost predicate MaySurvive(c: Claim, kept: map<Id, EvidenceSpan>) {
    || c.ref.kind == PersonMention || c.ref.kind == Relationship
    || exists e :: e in c.evidenceIds && e in kept && kept[e].segment in c.sources
  }

  /** The reasons to raise in plain terms. */
  lemma BlockedMeans(x: Extraction, s: Setting)
    ensures Blocked(x, s) <==>
            || s.t.asrModel == "" || s.t.asrRevision == ""
            || (exists c :: c in x.claims && c.ref.id == "")
            || (exists c :: c in x.claims && (c.ref.kind == PersonMention || c.ref.kind == Relationship) &&
                            forall seg :: seg in s.t.segments ==> seg.id !in c.sources)
            || (Unnamed(x, s) && exists c :: c in x.claims && MaySurvive(c, KeptLedger(x, s).at))
  {
    forall c ensures HasEvidence(c, KeptLedger(x, s).at) <==> MaySurvive(c, KeptLedger(x, s).at) {
      UsableMeans(c, KeptLedger(x, s).at);
    }
  }

  /** An empty segment id raises when the claim is one that falls back on it. */
  lemma MeetsEmptySegmentMeans(r: Loop, i: nat)
    requires i < |r.x.claims| && KeyedById(r.kept)
    ensures var c, ev := r.x.claims[i], r.At(i).ledger.at;
      r.MeetsEmptySegment(i) <==>
      && (c.ref.kind == PersonMention || c.ref.kind == Relationship)
      && (forall e :: e in c.evidenceIds && e in ev ==> ev[e].segment !in c.sources)
      && exists seg :: seg in r.s.t.segments && seg.id in c.sources && seg.id == ""
  {
    UsableMeans(r.x.claims[i], r.At(i).ledger.at);
  }
}
