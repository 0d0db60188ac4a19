/**
 * The two halves of the pipeline together: what `augment_bounded_coreference` adds to an extraction, as seen by
 * `materialize_extraction_contract_v2`. The added evidence always survives; an added link is accepted unless it is
 * resolved and its antecedents are not named in the text by their primary names.
 */
module CoreferenceContract {
  import opened Common
  import opened DerivationGraph
  import opened DerivationSearch
  import opened Evidence
  import opened ClaimContract
  import opened ClaimMaterialization
  import opened ContractAssembly
  import Contexts = CoreferenceContexts
  import Coref = CoreferenceAugmentation

  // ---- spans that are derived from nothing ----

  /** A span that cites nothing is never marked. */
  lemma {:induction false} LeafUnmarked(g: Graph, p: Progress, u: Id, v: Id)
    requires u in g && v in g && g[v] == [] && v !in p.stack && v !in p.invalid
    ensures v !in VisitOne(g, p, u).invalid
    decreases g.Keys - p.state.Keys, 0
  {
    if u !in p.invalid && u !in p.state {
      var entered := Progress(p.state[u := ON_STACK], p.stack + [u], p.invalid);
      assert u in g.Keys - p.state.Keys && u !in g.Keys - entered.state.Keys;
      if u != v {
        LeafUnmarkedByAll(g, entered, g[u], 0, v);
      }
    }
  }

  lemma {:induction false} LeafUnmarkedByAll(g: Graph, p: Progress, parents: seq<Id>, i: nat, v: Id)
    requires i <= |parents| && v in g && g[v] == [] && v !in p.stack && v !in p.invalid
    ensures v !in VisitAll(g, p, parents, i).invalid
    decreases g.Keys - p.state.Keys, |parents| - i + 1
  {
    if i < |parents| {
      var next := if parents[i] in g then VisitOne(g, p, parents[i]) else p;
      if parents[i] in g {
        LeafUnmarked(g, p, parents[i], v);
      }
      assert g.Keys - next.state.Keys <= g.Keys - p.state.Keys;
      LeafUnmarkedByAll(g, next, parents, i + 1, v);
    }
  }

  lemma LeafSurvives(g: Graph, order: seq<Id>, v: Id)
    requires v in g && g[v] == []
    ensures v in Survivors(g, order)
  {
    CitesUnknownMeans(g, v);
    LeafUnmarkedByAll(g, Progress(map[], [], Dangling(g)), order, 0, v);
  }

  lemma {:induction false} AdmissibleIsCandidate(spans: seq<EvidenceSpan>, e: EvidenceSpan, x: Extraction, s: Setting)
    requires e in spans && Admissible(e, x, s)
    requires forall i, j :: 0 <= i < j < |spans| ==> spans[i].id != spans[j].id
    ensures e.id in CandidateLedger(spans, x, s).at && CandidateLedger(spans, x, s).at[e.id] == Stamped(e, s)
  {
    var front, last := spans[..|spans| - 1], spans[|spans| - 1];
    assert spans == front + [last];
    if e != last {
      AdmissibleIsCandidate(front, e, x, s);
      var i :| 0 <= i < |front| && front[i] == e;
      assert spans[i].id != last.id;
    }
  }

  /** The span survives the builder's checks, stamped with the extractor. */
  ghost predicate SpanKept(e: EvidenceSpan, x: Extraction, s: Setting) {
    e.id in KeptLedger(x, s).at && KeptLedger(x, s).at[e.id] == Stamped(e, s)
  }

  /** A proposed span that passes its own check and cites nothing is in the contract. */
  lemma UnderivedSpanIsKept(e: EvidenceSpan, x: Extraction, s: Setting)
    requires WellFormed(x) && e in x.spans && Admissible(e, x, s) && e.derivedFrom == []
    ensures SpanKept(e, x, s)
  {
    var cand := CandidateLedger(x.spans, x, s);
    AdmissibleIsCandidate(x.spans, e, x, s);
    assert Proposed(x, s)[e.id] == Dedup([]);
    LeafSurvives(Proposed(x, s), cand.keys, e.id);
  }

  // ---- one addition ----

  /** What the tokenizer guarantees: an anaphor is the slice of its segment that it claims to be. */
  ghost predicate ExactSurfaces(d: Contexts.Discourse) {
    forall s, a :: a in d.anaphors(s) ==> ExactSurface(d, s, a)
  }

  ghost predicate ExactSurface(d: Contexts.Discourse, segment: Id, a: Contexts.Anaphor) {
    a.start <= a.end <= |d.text(segment)| && a.surface == d.text(segment)[a.start..a.end]
  }

  /** The context is one of the discourse and the discourse is that of the extraction. */
  ghost predicate Belongs(c: Contexts.Context, d: Contexts.Discourse, x: Extraction, s: Setting) {
    && Coref.SoundDiscourse(d) && Coref.ReadFrom(d, s.t) && Coref.KnownPeople(d, MentionIds(x.claims))
    && Contexts.Justified(d, c) && Coref.SlicesOk(c, d) && c.segment in d.segments
    && ExactSurface(d, c.segment, c.anaphor)
  }

  lemma AdditionIsKept(c: Contexts.Context, d: Contexts.Discourse, n: Coref.Naming, x: Extraction, s: Setting)
    requires WellFormed(x) && Belongs(c, d, x, s)
    requires var a := Coref.AdditionFor(c, d, n); a.unit in x.spans && a.anaphor in x.spans
    ensures var a := Coref.AdditionFor(c, d, n); SpanKept(a.unit, x, s) && SpanKept(a.anaphor, x, s)
  {
    var a := Coref.AdditionFor(c, d, n);
    Coref.ContextPeopleKnown(d, c, MentionIds(x.claims));
    Coref.AddedEvidenceIsValid(c, n.linkId(c), d, n.safe, s.t, s.readable, MentionIds(x.claims));
    UnderivedSpanIsKept(a.unit, x, s);
    UnderivedSpanIsKept(a.anaphor, x, s);
  }

  /** What a link cites when it was built for the context. */
  lemma AdditionRefers(c: Contexts.Context, d: Contexts.Discourse, n: Coref.Naming, x: Extraction, s: Setting)
    requires Belongs(c, d, x, s)
    ensures var a := Coref.AdditionFor(c, d, n);
      && a.link.evidenceIds == [a.unit.id, a.anaphor.id]
      && ToSet(a.link.sources) == {a.unit.segment, a.anaphor.segment}
      && a.unit.segment in RawText(s.t) && a.anaphor.segment in RawText(s.t)
      && ToSet(a.link.antecedents) + ToSet(a.link.candidates) <= MentionIds(x.claims)
      && a.anaphor.text == a.link.anaphor
  {
    Coref.ContextPeopleKnown(d, c, MentionIds(x.claims));
    SourcesOfContext(c, d);
    AntecedentsKnown(Coref.AdditionFor(c, d, n).link, c, MentionIds(x.claims));
  }

  lemma SourcesOfContext(c: Contexts.Context, d: Contexts.Discourse)
    ensures ToSet(Coref.SegmentsOf(c, d)) == {c.unit.segment, c.segment}
  {
    var pair := [c.unit.segment, c.segment];
    assert pair[0] in pair && pair[1] in pair;
    assert ToSet(pair) == {c.unit.segment, c.segment};
  }

  lemma AntecedentsKnown(l: CoreferenceLink, c: Contexts.Context, mentions: set<Id>)
    requires ToSet(c.candidates) <= mentions && l.candidates == c.candidates
    requires l.antecedents == c.candidates || l.antecedents == []
    ensures ToSet(l.antecedents) + ToSet(l.candidates) <= mentions
  {
  }

  lemma WholeText(t: string)
    ensures ContainsText(t, t)
  {
    assert OccursAt(t, t, 0);
  }

  /** A link built for a context breaks at most one rule: being resolved without its antecedents' primary names. */
  lemma AdditionVerdict(c: Contexts.Context, d: Contexts.Discourse, n: Coref.Naming, x: Extraction, s: Setting,
                        named: CoreferenceLink -> bool)
    requires WellFormed(x) && Belongs(c, d, x, s)
    requires var a := Coref.AdditionFor(c, d, n); a.unit in x.spans && a.anaphor in x.spans
    ensures var l := Coref.AdditionFor(c, d, n).link;
      LinkVerdict(l, KeptLedger(x, s).at, RawText(s.t).Keys, MentionIds(x.claims), named) ==
      if l.status == Resolved && !named(l) then Some(CoreferenceReferenceInvalid) else None
  {
    var a, kept := Coref.AdditionFor(c, d, n), KeptLedger(x, s).at;
    AdditionIsKept(c, d, n, x, s);
    AdditionRefers(c, d, n, x, s);
    WholeText(a.link.anaphor);
    VerdictOfPair(a.link, a.unit, a.anaphor, kept, RawText(s.t).Keys, MentionIds(x.claims), named, s);
  }

  /** The verdict on a link over two spans that are in the ledger. */
  lemma VerdictOfPair(l: CoreferenceLink, e: EvidenceSpan, f: EvidenceSpan, kept: map<Id, EvidenceSpan>,
                      segments: set<Id>, mentions: set<Id>, named: CoreferenceLink -> bool, s: Setting)
    requires e.id in kept && kept[e.id] == Stamped(e, s) && f.id in kept && kept[f.id] == Stamped(f, s)
    requires l.evidenceIds == [e.id, f.id] && ToSet(l.sources) == {e.segment, f.segment}
    requires e.segment in segments && f.segment in segments
    requires ToSet(l.antecedents) + ToSet(l.candidates) <= mentions && ContainsText(f.text, l.anaphor)
    ensures LinkVerdict(l, kept, segments, mentions, named) ==
            if l.status == Resolved && !named(l) then Some(CoreferenceReferenceInvalid) else None
  {
    assert forall i :: i in l.evidenceIds ==> i == e.id || i == f.id;
    assert l.evidenceIds[1] == f.id;
    assert e.segment in ToSet(l.sources) && f.segment in ToSet(l.sources);
  }

  // ---- a whole run ----

  lemma {:induction false} AnaphorsOfContexts(d: Contexts.Discourse, segment: Id, anaphors: seq<Contexts.Anaphor>)
    ensures forall c :: c in Contexts.ContextsOf(d, segment, anaphors) ==> c.segment == segment && c.anaphor in anaphors
  {
    if anaphors != [] {
      var last := anaphors[|anaphors| - 1];
      AnaphorsOfContexts(d, segment, anaphors[..|anaphors| - 1]);
      assert last in anaphors;
    }
  }

  lemma {:induction false} AnaphorsOfAll(d: Contexts.Discourse, segments: seq<Id>)
    ensures forall c :: c in Contexts.AllContexts(d, segments) ==> c.anaphor in d.anaphors(c.segment)
  {
    if segments != [] {
      var s := segments[|segments| - 1];
      AnaphorsOfAll(d, segments[..|segments| - 1]);
      AnaphorsOfContexts(d, s, d.anaphors(s));
    }
  }

  /** Everything that the run added to the draft is in the extraction. */
  ghost predicate Carried(draft: Coref.Draft, y: Coref.Draft, x: Extraction) {
    && (forall j :: |draft.links| <= j < |y.links| ==> y.links[j] in x.links)
    && (forall k :: |draft.evidence| <= k < |y.evidence| ==> y.evidence[k] in x.spans)
  }

  /** The contract's verdict on a link that breaks at most the naming rule. */
  ghost predicate OnlyNamingMatters(l: CoreferenceLink, x: Extraction, s: Setting, named: CoreferenceLink -> bool) {
    l.(verification := Unreviewed) in ContractLinks(x, s, named) || (l.status == Resolved && !named(l))
  }

  lemma AdditionPasses(c: Contexts.Context, d: Contexts.Discourse, n: Coref.Naming, x: Extraction, s: Setting,
                       named: CoreferenceLink -> bool)
    requires WellFormed(x) && Belongs(c, d, x, s)
    requires var a := Coref.AdditionFor(c, d, n); a.unit in x.spans && a.anaphor in x.spans && a.link in x.links
    ensures OnlyNamingMatters(Coref.AdditionFor(c, d, n).link, x, s, named)
  {
    var l := Coref.AdditionFor(c, d, n).link;
    AdditionVerdict(c, d, n, x, s, named);
    EveryLinkAccounted(x.links, KeptLedger(x, s).at, RawText(s.t).Keys, MentionIds(x.claims), named, l);
  }

  lemma {:induction false} AdditionForSome(a: Coref.Addition, cs: seq<Contexts.Context>, d: Contexts.Discourse,
                                           n: Coref.Naming)
    returns (c: Contexts.Context)
    requires Coref.AllInRange(cs, d) && a in Coref.Additions(cs, d, n)
    ensures c in cs && Coref.InRange(c, d) && a == Coref.AdditionFor(c, d, n)
  {
    var front, last := cs[..|cs| - 1], cs[|cs| - 1];
    assert Coref.AllInRange(front, d) && Coref.InRange(last, d) && last in cs;
    if a == Coref.AdditionFor(last, d, n) {
      c := last;
    } else {
      c := AdditionForSome(a, front, d, n);
    }
  }

  /**
   * Every link that a run of the coreference augmentation adds is accepted into the contract, unless it is resolved
   * and its antecedents are not named by their primary names; its evidence always survives.
   */
  lemma AddedLinksPass(draft: Coref.Draft, d: Contexts.Discourse, n: Coref.Naming, x: Extraction, s: Setting,
                       named: CoreferenceLink -> bool)
    requires Coref.SoundDiscourse(d) && ExactSurfaces(d)
    requires Coref.ReadFrom(d, s.t) && Coref.KnownPeople(d, MentionIds(x.claims)) && WellFormed(x)
    ensures Coref.AllInRange(Contexts.AllContexts(d, d.segments), d)
    ensures var y := Coref.Augmented(draft, Contexts.AllContexts(d, d.segments), d, n);
      Carried(draft, y, x) ==>
        && (forall j :: |draft.links| <= j < |y.links| ==> OnlyNamingMatters(y.links[j], x, s, named))
        && (forall k :: |draft.evidence| <= k < |y.evidence| ==> SpanKept(y.evidence[k], x, s))
  {
    var cs := Contexts.AllContexts(d, d.segments);
    Coref.ContextsInRange(d, cs);
    var clean := draft.(relationships := Coref.CleanLinks(draft.relationships, Coref.TrustedLinkIds(draft.links)));
    var y := Coref.AddContexts(clean, cs, d, n);
    if Carried(draft, y, x) {
      AllBelong(d, x, s);
      Coref.AddsOnlyForContexts(clean, cs, d, n);
      CarriedPass(clean, y, cs, d, n, x, s, named);
    }
  }

  lemma AllBelong(d: Contexts.Discourse, x: Extraction, s: Setting)
    requires Coref.SoundDiscourse(d) && ExactSurfaces(d)
    requires Coref.ReadFrom(d, s.t) && Coref.KnownPeople(d, MentionIds(x.claims))
    ensures forall c :: c in Contexts.AllContexts(d, d.segments) ==> Belongs(c, d, x, s)
  {
    Coref.ContextsInRange(d, Contexts.AllContexts(d, d.segments));
    Contexts.AllJustified(d, d.segments);
    Coref.ContextsFromSegments(d, d.segments);
    AnaphorsOfAll(d, d.segments);
    forall c | c in Contexts.AllContexts(d, d.segments) ensures ExactSurface(d, c.segment, c.anaphor) {
      assert c.anaphor in d.anaphors(c.segment);
    }
  }

  lemma CarriedPass(draft: Coref.Draft, y: Coref.Draft, cs: seq<Contexts.Context>, d: Contexts.Discourse,
                    n: Coref.Naming, x: Extraction, s: Setting, named: CoreferenceLink -> bool)
    requires Coref.AllInRange(cs, d) && Coref.GrownBy(draft, y, Coref.Additions(cs, d, n)) && Carried(draft, y, x)
    requires WellFormed(x) && forall c :: c in cs ==> Belongs(c, d, x, s)
    ensures forall j :: |draft.links| <= j < |y.links| ==> OnlyNamingMatters(y.links[j], x, s, named)
    ensures forall k :: |draft.evidence| <= k < |y.evidence| ==> SpanKept(y.evidence[k], x, s)
  {
    var additions := Coref.Additions(cs, d, n);
    var okLink := (l: CoreferenceLink) => OnlyNamingMatters(l, x, s, named);
    var okSpan := (e: EvidenceSpan) => SpanKept(e, x, s);
    forall a | a in additions && InExtraction(a, x) ensures okLink(a.link) && okSpan(a.unit) && okSpan(a.anaphor) {
      AdditionOfRunPasses(a, cs, d, n, x, s, named);
    }
    EveryCarried(draft, y, additions, x, okLink, okSpan);
  }

  predicate InExtraction(a: Coref.Addition, x: Extraction) {
    a.link in x.links && a.unit in x.spans && a.anaphor in x.spans
  }

  /** What holds of every addition that the extraction contains holds of everything that was added. */
  lemma EveryCarried(draft: Coref.Draft, y: Coref.Draft, additions: seq<Coref.Addition>, x: Extraction,
                     okLink: CoreferenceLink -> bool, okSpan: EvidenceSpan -> bool)
    requires Coref.GrownBy(draft, y, additions) && Carried(draft, y, x)
    requires forall a :: a in additions && InExtraction(a, x) ==> okLink(a.link) && okSpan(a.unit) && okSpan(a.anaphor)
    ensures forall j :: |draft.links| <= j < |y.links| ==> okLink(y.links[j])
    ensures forall k :: |draft.evidence| <= k < |y.evidence| ==> okSpan(y.evidence[k])
  {
    forall j | |draft.links| <= j < |y.links| ensures okLink(y.links[j]) {
      OneCarried(draft, y, additions, x, j);
    }
    forall k | |draft.evidence| <= k < |y.evidence| ensures okSpan(y.evidence[k]) {
      var half := (k - |draft.evidence|) / 2;
      assert k == |draft.evidence| + 2 * half || k == |draft.evidence| + 2 * half + 1;
      OneCarried(draft, y, additions, x, |draft.links| + half);
    }
  }

  lemma OneCarried(draft: Coref.Draft, y: Coref.Draft, additions: seq<Coref.Addition>, x: Extraction, j: nat)
    requires Coref.GrownBy(draft, y, additions) && Carried(draft, y, x) && |draft.links| <= j < |y.links|
    ensures var k := |draft.evidence| + 2 * (j - |draft.links|);
      && k + 1 < |y.evidence|
      && var a := Coref.Addition(y.links[j], y.evidence[k], y.evidence[k + 1]);
        a in additions && InExtraction(a, x)
  {
    assert Coref.IsAddition(draft, y, j, additions);
  }

  lemma AdditionOfRunPasses(a: Coref.Addition, cs: seq<Contexts.Context>, d: Contexts.Discourse, n: Coref.Naming,
                            x: Extraction, s: Setting, named: CoreferenceLink -> bool)
    requires Coref.AllInRange(cs, d) && a in Coref.Additions(cs, d, n)
    requires WellFormed(x) && forall c :: c in cs ==> Belongs(c, d, x, s)
    requires a.unit in x.spans && a.anaphor in x.spans && a.link in x.links
    ensures OnlyNamingMatters(a.link, x, s, named) && SpanKept(a.unit, x, s) && SpanKept(a.anaphor, x, s)
  {
    var c := AdditionForSome(a, cs, d, n);
    AdditionIsKept(c, d, n, x, s);
    AdditionPasses(c, d, n, x, s, named);
  }
}
