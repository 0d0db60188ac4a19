/**
 * `materialize_extraction_contract_v2` from end to end: proposed spans are checked and filtered, links, claims
 * and conflicts are rebuilt around what is left, and the checker accepts the result exactly when the filtered
 * derivation graph is closed.
 */
module ContractAssembly {
  import opened Common
  import opened DerivationGraph
  import DerivationOrders
  import DerivationSearch
  import opened Evidence
  import opened ClaimContract
  import opened ClaimLoop
  import opened ClaimMaterialization
  import opened Conflicts
  import opened RebuiltClaims
  import EvidenceDerivations

  // ---- proposed spans ----

  /** The spans that pass `_validate_candidate_evidence`, stamped with the extractor activity. */
  function CandidateLedger(spans: seq<EvidenceSpan>, x: Extraction, s: Setting): (d: Ledger)
    ensures KeyedById(d)
  {
    if spans == [] then
      Dict([], map[])
    else
      var e := spans[|spans| - 1];
      var d := CandidateLedger(spans[..|spans| - 1], x, s);
      if Admissible(e, x, s) then
        d.Put(e.id, Stamped(e, s))
      else d
  }

  predicate Admissible(e: EvidenceSpan, x: Extraction, s: Setting) {
    ValidateCandidate(e, RawText(s.t), s.readable, MentionIds(x.claims)).None?
  }

  function Stamped(e: EvidenceSpan, s: Setting): EvidenceSpan {
    e.(createdBy := Some(s.Extractor()), derivedFrom := Dedup(e.derivedFrom))
  }

  function CandidateIssues(spans: seq<EvidenceSpan>, x: Extraction, s: Setting): seq<Issue> {
    if spans == [] then
      []
    else
      var e := spans[|spans| - 1];
      var code := ValidateCandidate(e, RawText(s.t), s.readable, MentionIds(x.claims));
      CandidateIssues(spans[..|spans| - 1], x, s) + if code.Some? then [Issue(Some(e.id), code.value, [])] else []
  }

  /** Every rejected span is reported with its code, and nothing else is. */
  lemma {:induction false} RejectedSpansReported(spans: seq<EvidenceSpan>, x: Extraction, s: Setting, i: Issue)
    ensures i in CandidateIssues(spans, x, s) <==> exists e :: e in spans && Rejects(i, e, x, s)
  {
    if spans != [] {
      var front, e := spans[..|spans| - 1], spans[|spans| - 1];
      assert spans == front + [e];
      RejectedSpansReported(front, x, s, i);
      OneMoreRejection(spans, x, s, i);
    }
  }

  /** The issue names the span and the code for which it is rejected. */
  ghost predicate Rejects(i: Issue, e: EvidenceSpan, x: Extraction, s: Setting) {
    && ValidateCandidate(e, RawText(s.t), s.readable, MentionIds(x.claims)) == Some(i.code)
    && i.objectId == Some(e.id) && i.related == []
  }

  lemma OneMoreRejection(spans: seq<EvidenceSpan>, x: Extraction, s: Setting, i: Issue)
    requires spans != []
    ensures var front, e := spans[..|spans| - 1], spans[|spans| - 1];
      i in CandidateIssues(spans, x, s) <==> i in CandidateIssues(front, x, s) || Rejects(i, e, x, s)
  {
  }

  method AcceptSpans(x: Extraction, s: Setting) returns (d: Ledger, issues: seq<Issue>)
    ensures d == CandidateLedger(x.spans, x, s)
    ensures issues == CandidateIssues(x.spans, x, s)
  {
    d, issues := Dict([], map[]), [];
    for i := 0 to |x.spans|
      invariant d == CandidateLedger(x.spans[..i], x, s)
      invariant issues == CandidateIssues(x.spans[..i], x, s)
    {
      var e := x.spans[i];
      var shorter, longer := x.spans[..i], x.spans[..i + 1];
      assert longer[..|longer| - 1] == shorter && longer[|longer| - 1] == e;
      var code := ValidateCandidate(e, RawText(s.t), s.readable, MentionIds(x.claims));
      if code.Some? {
        issues := issues + [Issue(Some(e.id), code.value, [])];
        continue;
      }
      d := d.Put(e.id, Stamped(e, s));
    }
    assert x.spans[..|x.spans|] == x.spans;
  }

  /** Every span of the ledger meets the checker's rules, and its id was proposed. */
  ghost predicate SpansOk(ev: map<Id, EvidenceSpan>, x: Extraction, s: Setting) {
    forall k :: k in ev ==> SpanOk(ev[k], RawText(s.t), s.readable, MentionIds(x.claims), ToSet(s.Activities()))
  }

  lemma {:induction false} CandidatesAreOk(spans: seq<EvidenceSpan>, x: Extraction, s: Setting)
    ensures SpansOk(CandidateLedger(spans, x, s).at, x, s)
    ensures forall k :: k in CandidateLedger(spans, x, s).at ==> exists e :: e in spans && e.id == k
  {
    if spans != [] {
      var front, e := spans[..|spans| - 1], spans[|spans| - 1];
      assert spans == front + [e];
      CandidatesAreOk(front, x, s);
      if Admissible(e, x, s) {
        StampedIsOk(e, x, s);
      }
    }
  }

  lemma StampedIsOk(e: EvidenceSpan, x: Extraction, s: Setting)
    requires Admissible(e, x, s)
    ensures SpanOk(Stamped(e, s), RawText(s.t), s.readable, MentionIds(x.claims), ToSet(s.Activities()))
  {
    assert s.Activities()[1] == s.Extractor();
  }

  /** The dictionary holds these spans, in order, each stamped with the extractor and with deduplicated citations. */
  ghost predicate Listed(d: Ledger, accepted: seq<EvidenceSpan>, s: Setting) {
    && |d.keys| == |accepted|
    && forall i :: 0 <= i < |accepted| ==> d.keys[i] == accepted[i].id && Stands(accepted[i], d.at, s)
  }

  /** With distinct ids the candidate ledger is the list of accepted spans. */
  lemma {:induction false} CandidatesInOrder(spans: seq<EvidenceSpan>, x: Extraction, s: Setting)
    requires forall i, j :: 0 <= i < j < |spans| ==> spans[i].id != spans[j].id
    ensures Listed(CandidateLedger(spans, x, s), Filter(spans, (e: EvidenceSpan) => IsCandidate(e, x, s)), s)
  {
    if spans != [] {
      var front, e := spans[..|spans| - 1], spans[|spans| - 1];
      CandidatesInOrder(front, x, s);
      FilterAppend(front, e, (e: EvidenceSpan) => IsCandidate(e, x, s));
      assert spans == front + [e];
      CandidatesAreOk(front, x, s);
      assert e.id !in CandidateLedger(front, x, s).at;
      if IsCandidate(e, x, s) {
        ListedPut(CandidateLedger(front, x, s), Filter(front, (e: EvidenceSpan) => IsCandidate(e, x, s)), e, s);
      }
    }
  }

  lemma ListedPut(d: Ledger, accepted: seq<EvidenceSpan>, e: EvidenceSpan, s: Setting)
    requires KeyedById(d) && Listed(d, accepted, s) && e.id !in d.at
    ensures Listed(d.Put(e.id, Stamped(e, s)), accepted + [e], s)
  {
    var r, more := d.Put(e.id, Stamped(e, s)), accepted + [e];
    NewKey(d, e.id, Stamped(e, s));
    forall i | 0 <= i < |more| ensures r.keys[i] == more[i].id && Stands(more[i], r.at, s) {
      if i < |accepted| {
        assert d.keys[i] == accepted[i].id && Stands(accepted[i], d.at, s) && more[i] == accepted[i];
      }
    }
  }

  /** A new key goes to the end. */
  lemma NewKey(d: Ledger, k: Id, e: EvidenceSpan)
    requires d.Valid() && k !in d.at
    ensures d.Put(k, e).keys == d.keys + [k]
  {
  }

  /** The span passes the candidate check. */
  ghost predicate IsCandidate(e: EvidenceSpan, x: Extraction, s: Setting) {
    ValidateCandidate(e, RawText(s.t), s.readable, MentionIds(x.claims)) == None
  }

  ghost predicate Stands(e: EvidenceSpan, ledger: map<Id, EvidenceSpan>, s: Setting) {
    && e.id in ledger
    && ledger[e.id] == e.(createdBy := Some("activity_extractor_" + s.safe(s.t.recording)),
                          derivedFrom := Dedup(e.derivedFrom))
  }

  // ---- coreference links ----

  /** The first rule a link breaks; `named` says that its antecedents are grounded in the source text. */
  function LinkVerdict(l: CoreferenceLink, ev: map<Id, EvidenceSpan>, segments: set<Id>, mentions: set<Id>,
                       named: CoreferenceLink -> bool): Option<IssueCode>
  {
    var unknown :=
      !(ToSet(l.sources) <= segments) || !(ToSet(l.evidenceIds) <= ev.Keys) ||
      !(ToSet(l.antecedents) + ToSet(l.candidates) <= mentions);
    if unknown then Some(CoreferenceReferenceInvalid)
    else if exists i :: i in l.evidenceIds && i in ev && ev[i].segment !in l.sources then
      Some(CoreferenceReferenceInvalid)
    else if !(exists i :: i in l.evidenceIds && i in ev && ContainsText(ev[i].text, l.anaphor)) then
      Some(CoreferenceAnaphorUnsupported)
    else if l.status == Resolved && !named(l) then Some(CoreferenceReferenceInvalid)
    else None
  }

  /** The segments, spans and people that a link names are known, and its spans lie in its segments. */
  ghost predicate ReferencesKnown(l: CoreferenceLink, ev: map<Id, EvidenceSpan>, segments: set<Id>,
                                  mentions: set<Id>)
  {
    && (forall g :: g in l.sources ==> g in segments)
    && (forall e :: e in l.evidenceIds ==> e in ev && ev[e].segment in l.sources)
    && (forall m :: m in l.antecedents || m in l.candidates ==> m in mentions)
  }

  /** The anaphor occurs in one of the spans. */
  ghost predicate AnaphorQuoted(l: CoreferenceLink, ev: map<Id, EvidenceSpan>) {
    exists e :: e in l.evidenceIds && e in ev && ContainsText(ev[e].text, l.anaphor)
  }

  /** What an accepted link satisfies, and when each code is given. */
  lemma LinkMeaning(l: CoreferenceLink, ev: map<Id, EvidenceSpan>, segments: set<Id>, mentions: set<Id>,
                    named: CoreferenceLink -> bool)
    ensures var verdict := LinkVerdict(l, ev, segments, mentions, named);
      var known, quoted := ReferencesKnown(l, ev, segments, mentions), AnaphorQuoted(l, ev);
      && (verdict == None <==> known && quoted && (l.status == Resolved ==> named(l)))
      && (verdict == Some(CoreferenceAnaphorUnsupported) <==> known && !quoted)
      && (verdict == Some(CoreferenceReferenceInvalid) <==>
            !known || (quoted && l.status == Resolved && !named(l)))
  {
    SubsetMeans(l.sources, segments);
    SubsetMeans(l.evidenceIds, ev.Keys);
    SubsetMeans(l.antecedents, mentions);
    SubsetMeans(l.candidates, mentions);
  }

  lemma SubsetMeans(ids: seq<Id>, known: set<Id>)
    ensures ToSet(ids) <= known <==> forall i :: i in ids ==> i in known
  {
    if ToSet(ids) <= known {
      forall i | i in ids ensures i in known {
        assert i in ToSet(ids);
      }
    }
  }

  function AcceptedLinks(ls: seq<CoreferenceLink>, ev: map<Id, EvidenceSpan>, segments: set<Id>, mentions: set<Id>,
                         named: CoreferenceLink -> bool): seq<CoreferenceLink>
  {
    if ls == [] then
      []
    else
      var l := ls[|ls| - 1];
      AcceptedLinks(ls[..|ls| - 1], ev, segments, mentions, named) +
      if LinkVerdict(l, ev, segments, mentions, named).None? then [l.(verification := Unreviewed)] else []
  }

  function LinkIssues(ls: seq<CoreferenceLink>, ev: map<Id, EvidenceSpan>, segments: set<Id>, mentions: set<Id>,
                      named: CoreferenceLink -> bool): seq<Issue>
  {
    if ls == [] then
      []
    else
      var l := ls[|ls| - 1];
      var code := LinkVerdict(l, ev, segments, mentions, named);
      LinkIssues(ls[..|ls| - 1], ev, segments, mentions, named) +
      if code.Some? then [Issue(Some(l.id), code.value, [])] else []
  }

  /** The accepted links are the proposed ones without a verdict, in order and unreviewed. */
  lemma {:induction false} LinksInOrder(ls: seq<CoreferenceLink>, ev: map<Id, EvidenceSpan>, segments: set<Id>,
                                        mentions: set<Id>, named: CoreferenceLink -> bool)
    ensures KeptUnreviewed(AcceptedLinks(ls, ev, segments, mentions, named),
                           Filter(ls, (l: CoreferenceLink) => LinkVerdict(l, ev, segments, mentions, named) == None))
  {
    if ls != [] {
      var front, l := ls[..|ls| - 1], ls[|ls| - 1];
      LinksInOrder(front, ev, segments, mentions, named);
      FilterAppend(front, l, (l: CoreferenceLink) => LinkVerdict(l, ev, segments, mentions, named) == None);
      assert ls == front + [l];
    }
  }

  ghost predicate KeptUnreviewed(accepted: seq<CoreferenceLink>, proposed: seq<CoreferenceLink>) {
    && |accepted| == |proposed|
    && forall i :: 0 <= i < |accepted| ==>
         accepted[i] == proposed[i].(verification := Unreviewed)
  }

  /** Every link is either accepted or named, with the first rule it breaks, in an issue. */
  lemma {:induction false} EveryLinkAccounted(ls: seq<CoreferenceLink>, ev: map<Id, EvidenceSpan>, segments: set<Id>,
                                              mentions: set<Id>, named: CoreferenceLink -> bool, l: CoreferenceLink)
    requires l in ls
    ensures var verdict := LinkVerdict(l, ev, segments, mentions, named);
      if verdict.None? then l.(verification := Unreviewed) in AcceptedLinks(ls, ev, segments, mentions, named)
      else Issue(Some(l.id), verdict.value, []) in LinkIssues(ls, ev, segments, mentions, named)
  {
    var front, last := ls[..|ls| - 1], ls[|ls| - 1];
    assert ls == front + [last];
    if l != last {
      EveryLinkAccounted(front, ev, segments, mentions, named, l);
    }
  }

  /** `_filter_coreference_links`. */
  method FilterLinks(ls: seq<CoreferenceLink>, ev: map<Id, EvidenceSpan>, segments: set<Id>, mentions: set<Id>,
                     named: CoreferenceLink -> bool)
    returns (accepted: seq<CoreferenceLink>, issues: seq<Issue>)
    ensures accepted == AcceptedLinks(ls, ev, segments, mentions, named)
    ensures issues == LinkIssues(ls, ev, segments, mentions, named)
  {
    accepted, issues := [], [];
    for i := 0 to |ls|
      invariant accepted == AcceptedLinks(ls[..i], ev, segments, mentions, named)
      invariant issues == LinkIssues(ls[..i], ev, segments, mentions, named)
    {
      var l := ls[i];
      assert ls[..i + 1][..i] == ls[..i] && ls[..i + 1][i] == l;
      var code := LinkVerdict(l, ev, segments, mentions, named);
      if code.Some? {
        issues := issues + [Issue(Some(l.id), code.value, [])];
        continue;
      }
      accepted := accepted + [l.(verification := Unreviewed)];
    }
    assert ls[..|ls|] == ls;
  }

  lemma {:induction false} AcceptedLinksAreOk(ls: seq<CoreferenceLink>, ev: map<Id, EvidenceSpan>, segments: set<Id>,
                                              mentions: set<Id>, named: CoreferenceLink -> bool)
    ensures forall a :: a in AcceptedLinks(ls, ev, segments, mentions, named) ==> LinkOk(a, ev, mentions)
  {
    if ls != [] {
      AcceptedLinksAreOk(ls[..|ls| - 1], ev, segments, mentions, named);
    }
  }

  ghost predicate DistinctLinks(ls: seq<CoreferenceLink>) {
    forall i, j :: 0 <= i < j < |ls| ==> ls[i].id != ls[j].id
  }

  lemma {:induction false} AcceptedLinksDistinct(ls: seq<CoreferenceLink>, ev: map<Id, EvidenceSpan>, segments: set<Id>,
                                                 mentions: set<Id>, named: CoreferenceLink -> bool)
    requires DistinctLinks(ls)
    ensures DistinctLinks(AcceptedLinks(ls, ev, segments, mentions, named))
    ensures forall a :: a in AcceptedLinks(ls, ev, segments, mentions, named) ==>
              exists i :: 0 <= i < |ls| && ls[i].id == a.id
  {
    if ls != [] {
      var front, l := ls[..|ls| - 1], ls[|ls| - 1];
      AcceptedLinksDistinct(front, ev, segments, mentions, named);
      OneMoreLink(ls, front, AcceptedLinks(front, ev, segments, mentions, named), l.(verification := Unreviewed));
    }
  }

  lemma OneMoreLink(ls: seq<CoreferenceLink>, front: seq<CoreferenceLink>, kept: seq<CoreferenceLink>,
                    l: CoreferenceLink)
    requires ls != [] && front == ls[..|ls| - 1] && DistinctLinks(ls) && DistinctLinks(kept) && l.id == ls[|ls| - 1].id
    requires forall a :: a in kept ==> exists i :: 0 <= i < |front| && front[i].id == a.id
    ensures DistinctLinks(kept + [l])
    ensures forall a :: a in kept + [l] ==> exists i :: 0 <= i < |ls| && ls[i].id == a.id
  {
    forall a | a in kept ensures a.id != l.id && exists i :: 0 <= i < |ls| && ls[i].id == a.id {
      var i :| 0 <= i < |front| && front[i].id == a.id;
      assert ls[i].id == a.id;
    }
  }

  // ---- claims ----

  /** An entry that the builder generated for one of the first `n` claims. */
  ghost predicate GeneratedEntry(k: Id, e: EvidenceSpan, n: nat, x: Extraction, s: Setting)
    requires n <= |x.claims|
  {
    && (exists j, seg :: MayGenerate(j, x) && j < n && seg in s.t.segments &&
          k == GeneratedId(x.claims[j].ref, seg.id, s.safe))
    && e.derivedFrom == []
    && SpanOk(e, RawText(s.t), s.readable, MentionIds(x.claims), ToSet(s.Activities()))
  }

  /** The state of the build after `n` claims, starting from the ledger `ev0`. */
  ghost predicate BuildInvariant(n: nat, ev0: map<Id, EvidenceSpan>, ev: map<Id, EvidenceSpan>, built: seq<Claim>,
                                 links: set<Id>, x: Extraction, s: Setting)
    requires n <= |x.claims|
  {
    && Grown(ev0, ev)
    && (forall k :: k in ev && k !in ev0 ==> GeneratedEntry(k, ev[k], n, x, s))
    && (forall b :: b in built ==> Grounded(b, ev, links, x, s))
    && MentionIds(built) == MentionIds(x.claims[..n])
  }

  lemma {:induction false} WeakestGrows(ids: seq<Id>, a: map<Id, EvidenceSpan>, b: map<Id, EvidenceSpan>,
                                        cls: EvidenceClass)
    requires Grown(a, b) && forall i :: i in ids ==> i in a
    ensures Weakest(ids, a, cls) == Weakest(ids, b, cls)
  {
    if ids != [] {
      WeakestGrows(ids[1..], a, b, cls);
    }
  }

  lemma GroundedGrows(c: Claim, a: map<Id, EvidenceSpan>, b: map<Id, EvidenceSpan>, links: set<Id>, x: Extraction,
                      s: Setting)
    requires Grown(a, b) && Grounded(c, a, links, x, s)
    ensures Grounded(c, b, links, x, s)
  {
    WeakestGrows(c.evidenceIds, a, b, c.cls);
  }

  /** The ids of what would be generated for claim `n` are new. */
  lemma GeneratedIsFresh(n: nat, cls: EvidenceClass, ev0: map<Id, EvidenceSpan>, ev: map<Id, EvidenceSpan>,
                         x: Extraction, s: Setting)
    requires n < |x.claims| && MayGenerate(n, x) && NoCollisions(x, s)
    requires forall k :: k in ev0 ==> exists e :: e in x.spans && e.id == k
    requires forall k :: k in ev && k !in ev0 ==> GeneratedEntry(k, ev[k], n, x, s)
    ensures var spans := GeneratedEvidence(x.claims[n], cls, s.t.segments, s);
      && (forall e :: e in spans ==> e.id !in ev)
      && (forall e, f :: e in spans && f in spans && e.id == f.id ==> e == f)
  {
    var c := x.claims[n];
    var spans := GeneratedEvidence(c, cls, s.t.segments, s);
    GeneratedEvidenceMembers(c, cls, s.t.segments, s);
    forall e | e in spans ensures e.id !in ev {
      var seg :| seg in s.t.segments && seg.id in c.sources && e == GeneratedSpan(c, cls, seg, s);
      assert e.id == GeneratedSpan(c, cls, seg, s).id == GeneratedId(c.ref, seg.id, s.safe);
      forall k | k in ev ensures k != e.id {
        if k in ev0 {
          var p :| p in x.spans && p.id == k;
        } else {
          assert GeneratedEntry(k, ev[k], n, x, s);
        }
      }
    }
    forall e, f | e in spans && f in spans && e.id == f.id ensures e == f {
      var a :| a in s.t.segments && a.id in c.sources && e == GeneratedSpan(c, cls, a, s);
      var b :| b in s.t.segments && b.id in c.sources && f == GeneratedSpan(c, cls, b, s);
      assert GeneratedSpan(c, cls, a, s).id == GeneratedId(c.ref, a.id, s.safe);
      assert GeneratedSpan(c, cls, b, s).id == GeneratedId(c.ref, b.id, s.safe);
    }
  }

  /** Generated evidence for claim `n` is non-empty, and every span passes the checker inside the claim's sources. */
  lemma GeneratedIsCorrect(n: nat, cls: EvidenceClass, x: Extraction, s: Setting)
    requires n < |x.claims| && FallbackAllowed(x.claims[n].ref.kind)
    requires Anchored(x.claims[n], s.t, MentionIds(x.claims)) && WellFormedTranscript(s.t)
    ensures var spans := GeneratedEvidence(x.claims[n], cls, s.t.segments, s);
      && spans != []
      && (forall e :: e in spans ==> e.segment in x.claims[n].sources && GeneratedEntry(e.id, e, n + 1, x, s))
  {
    var c := x.claims[n];
    var spans := GeneratedEvidence(c, cls, s.t.segments, s);
    GeneratedEvidenceMembers(c, cls, s.t.segments, s);
    var anchor :| anchor in s.t.segments && anchor.id in c.sources;
    assert GeneratedSpan(c, cls, anchor, s) in spans;
    forall e | e in spans ensures e.segment in c.sources && GeneratedEntry(e.id, e, n + 1, x, s) {
      var seg :| seg in s.t.segments && seg.id in c.sources && e == GeneratedSpan(c, cls, seg, s);
      GeneratedSpanOk(c, cls, seg, x, s);
      var g := GeneratedSpan(c, cls, seg, s);
      assert e.id == g.id == GeneratedId(x.claims[n].ref, seg.id, s.safe) && e.segment == g.segment;
    }
  }

  /** Adding the evidence generated for claim `n` disturbs nothing and supports the claim. */
  lemma GeneratedIsSound(n: nat, cls: EvidenceClass, ev0: map<Id, EvidenceSpan>, d: Ledger, x: Extraction, s: Setting)
    requires n < |x.claims| && FallbackAllowed(x.claims[n].ref.kind) && KeyedById(d)
    requires forall k :: k in d.at && k !in ev0 ==> GeneratedEntry(k, d.at[k], n, x, s)
    requires Hypotheses(x, s) && WellFormedTranscript(s.t)
    requires forall k :: k in ev0 ==> exists e :: e in x.spans && e.id == k
    ensures var c := x.claims[n];
      var spans := GeneratedEvidence(c, cls, s.t.segments, s);
      var ev := PutAll(d, spans).at;
      && spans != []
      && Grown(d.at, ev)
      && (forall k :: k in ev && k !in d.at ==> GeneratedEntry(k, ev[k], n + 1, x, s))
      && (forall i :: i in Ids(spans) ==> i in ev && ev[i].segment in c.sources)
  {
    var c := x.claims[n];
    var spans := GeneratedEvidence(c, cls, s.t.segments, s);
    GeneratedIsFresh(n, cls, ev0, d.at, x, s);
    GeneratedIsCorrect(n, cls, x, s);
    PutAllFresh(d, spans);
  }

  lemma GeneratedSpanOk(c: Claim, cls: EvidenceClass, seg: Segment, x: Extraction, s: Setting)
    requires WellFormedTranscript(s.t) && seg in s.t.segments
    requires ToSet(MentionsOf(c)) <= MentionIds(x.claims)
    ensures SpanOk(GeneratedSpan(c, cls, seg, s), RawText(s.t), s.readable, MentionIds(x.claims), ToSet(s.Activities()))
  {
    SegmentIsValid(c, cls, seg, x, s);
    assert s.Activities()[2] == s.Sanitizer();
  }

  lemma SegmentIsValid(c: Claim, cls: EvidenceClass, seg: Segment, x: Extraction, s: Setting)
    requires WellFormedTranscript(s.t) && seg in s.t.segments
    requires ToSet(MentionsOf(c)) <= MentionIds(x.claims)
    ensures ValidateCandidate(GeneratedSpan(c, cls, seg, s), RawText(s.t), s.readable, MentionIds(x.claims)).None?
  {
    var e := GeneratedSpan(c, cls, seg, s);
    assert ToSet(e.mentions) == ToSet(MentionsOf(c));
    TextOfSegment(s.t.segments, seg);
    WholeSegmentIsValid(e, RawText(s.t), s.readable, MentionIds(x.claims));
  }

  lemma WholeSegmentIsValid(e: EvidenceSpan, raw: map<Id, string>, readable: map<Id, string>, mentions: set<Id>)
    requires e.segment in raw && raw[e.segment] == e.text && e.layer == RawTranscript
    requires e.start == Some(0) && e.end == Some(|e.text|) && ToSet(e.mentions) <= mentions
    ensures ValidateCandidate(e, raw, readable, mentions).None?
  {
    assert OccursAt(e.text, e.text, 0);
    assert Slice(e.text, 0, |e.text|) == e.text;
  }

  /** The evidence chosen for claim `n` disturbs nothing, supports the claim, and is never empty for a fallback. */
  lemma ChosenIsSound(n: nat, cls: EvidenceClass, ev0: map<Id, EvidenceSpan>, d: Ledger, x: Extraction, s: Setting)
    requires n < |x.claims| && KeyedById(d)
    requires forall k :: k in d.at && k !in ev0 ==> GeneratedEntry(k, d.at[k], n, x, s)
    requires Hypotheses(x, s) && WellFormedTranscript(s.t)
    requires forall k :: k in ev0 ==> exists e :: e in x.spans && e.id == k
    ensures var (ids, after) := ChosenEvidence(x.claims[n], cls, d, s);
      && (FallbackAllowed(x.claims[n].ref.kind) ==> ids != [])
      && Grown(d.at, after.at)
      && (forall k :: k in after.at && k !in d.at ==> GeneratedEntry(k, after.at[k], n + 1, x, s))
      && (forall i :: i in ids ==> i in after.at && after.at[i].segment in x.claims[n].sources)
  {
    var c := x.claims[n];
    if UsableEvidence(c, d.at) == [] && FallbackAllowed(c.ref.kind) {
      GeneratedIsSound(n, cls, ev0, d, x, s);
      var spans := GeneratedEvidence(c, cls, s.t.segments, s);
      assert Ids(spans) != [];
    }
  }

  /** One claim keeps the invariant, and under the hypotheses nothing is raised. */
  lemma ItemKeepsInvariant(n: nat, cls: EvidenceClass, ev0: map<Id, EvidenceSpan>, d: Ledger, built: seq<Claim>,
                           links: set<Id>, x: Extraction, s: Setting)
    requires n < |x.claims| && KeyedById(d)
    requires BuildInvariant(n, ev0, d.at, built, links, x, s)
    requires Hypotheses(x, s) && WellFormedTranscript(s.t)
    requires forall k :: k in ev0 ==> exists e :: e in x.spans && e.id == k
    ensures var c := x.claims[n];
      var out, after := ItemOutcome(c, cls, d, links, x, s), ChosenEvidence(c, cls, d, s).1;
      && !out.Raised?
      && BuildInvariant(n + 1, ev0, after.at, WithOutcome(built, out), links, x, s)
  {
    var c := x.claims[n];
    var (ids, after) := ChosenEvidence(c, cls, d, s);
    ChosenIsSound(n, cls, ev0, d, x, s);
    NothingEmpty(n, cls, x, s);
    LedgerKeepsInvariant(n, ev0, d.at, after.at, built, links, x, s);
    if ids != [] {
      RebuiltIsGrounded(c, cls, ids, after.at, links, x, s);
    }
    OutcomeKeepsInvariant(n, ids, cls, ev0, after.at, built, ItemOutcome(c, cls, d, links, x, s), links, x, s);
  }

  /** Under the hypotheses every generated span can be constructed. */
  lemma NothingEmpty(n: nat, cls: EvidenceClass, x: Extraction, s: Setting)
    requires n < |x.claims| && AllNamed(x, s) && WellFormedTranscript(s.t)
    ensures x.claims[n].ref.id != "" && AllConstructible(GeneratedEvidence(x.claims[n], cls, s.t.segments, s))
  {
    var c := x.claims[n];
    GeneratedEvidenceMembers(c, cls, s.t.segments, s);
    forall e | e in GeneratedEvidence(c, cls, s.t.segments, s) ensures Constructible(e) {
      var seg :| seg in s.t.segments && seg.id in c.sources && e == GeneratedSpan(c, cls, seg, s);
      GeneratedIdNotEmpty(c.ref, seg.id, s.safe);
    }
  }

  lemma GeneratedIdNotEmpty(ref: ClaimRef, segment: Id, safe: string -> string)
    ensures GeneratedId(ref, segment, safe) != ""
  {
    assert |GeneratedId(ref, segment, safe)| >= |"evidence_"|;
  }

  lemma OutcomeKeepsInvariant(n: nat, ids: seq<Id>, cls: EvidenceClass, ev0: map<Id, EvidenceSpan>,
                              after: map<Id, EvidenceSpan>, built: seq<Claim>, out: Outcome, links: set<Id>,
                              x: Extraction, s: Setting)
    requires n < |x.claims| && Grown(ev0, after)
    requires forall k :: k in after && k !in ev0 ==> GeneratedEntry(k, after[k], n + 1, x, s)
    requires forall b :: b in built ==> Grounded(b, after, links, x, s)
    requires MentionIds(built) == MentionIds(x.claims[..n])
    requires out.Dropped? ==> x.claims[n].ref.kind != PersonMention
    requires out.Kept? ==> out.claim.ref == x.claims[n].ref && Grounded(out.claim, after, links, x, s)
    requires !out.Raised?
    ensures BuildInvariant(n + 1, ev0, after, WithOutcome(built, out), links, x, s)
  {
    MentionsStep(n, built, x);
    if out.Kept? {
      assert forall b :: b in built + [out.claim] ==> b in built || b == out.claim;
    }
  }

  function WithOutcome(built: seq<Claim>, out: Outcome): seq<Claim> {
    if out.Kept? then built + [out.claim] else built
  }

  /** A ledger that only gained sound generated entries still supports every claim built so far. */
  lemma LedgerKeepsInvariant(n: nat, ev0: map<Id, EvidenceSpan>, ev: map<Id, EvidenceSpan>,
                             after: map<Id, EvidenceSpan>, built: seq<Claim>, links: set<Id>, x: Extraction, s: Setting)
    requires n < |x.claims| && BuildInvariant(n, ev0, ev, built, links, x, s)
    requires Grown(ev, after) && forall k :: k in after && k !in ev ==> GeneratedEntry(k, after[k], n + 1, x, s)
    ensures Grown(ev0, after)
    ensures forall k :: k in after && k !in ev0 ==> GeneratedEntry(k, after[k], n + 1, x, s)
    ensures forall b :: b in built ==> Grounded(b, after, links, x, s)
  {
    forall k | k in after && k !in ev0 ensures GeneratedEntry(k, after[k], n + 1, x, s) {
      if k in ev {
        assert GeneratedEntry(k, ev[k], n, x, s);
      }
    }
    forall b | b in built ensures Grounded(b, after, links, x, s) {
      GroundedGrows(b, ev, after, links, x, s);
    }
  }

  lemma MentionsStep(n: nat, built: seq<Claim>, x: Extraction)
    requires n < |x.claims| && MentionIds(built) == MentionIds(x.claims[..n])
    ensures forall c: Claim :: c.ref == x.claims[n].ref ==> MentionIds(built + [c]) == MentionIds(x.claims[..n + 1])
    ensures x.claims[n].ref.kind != PersonMention ==> MentionIds(built) == MentionIds(x.claims[..n + 1])
  {
    var c := x.claims[n];
    assert x.claims[..n + 1] == x.claims[..n] + [c];
    MentionsAppend(x.claims[..n], c);
    forall d: Claim | d.ref == c.ref ensures MentionIds(built + [d]) == MentionIds(x.claims[..n + 1]) {
      MentionsAppend(built, d);
    }
  }

  lemma MentionsAppend(a: seq<Claim>, c: Claim)
    ensures MentionIds(a + [c]) == MentionIds(a) + if c.ref.kind == PersonMention then {c.ref.id} else {}
  {
    forall i ensures i in MentionIds(a + [c]) <==>
                     i in MentionIds(a) || (c.ref.kind == PersonMention && i == c.ref.id)
    {
      if i in MentionIds(a) {
        var d :| d in a && d.ref.kind == PersonMention && d.ref.id == i;
        assert d in a + [c];
      }
      if c.ref.kind == PersonMention && i == c.ref.id {
        assert c in a + [c];
      }
    }
  }

  // ---- the derivation graph of the result ----

  /** Generated spans cite nothing and nobody cites them, so they change neither closure nor cycles. */
  lemma GeneratedSpansAreIsolated(kept: Ledger, d: Ledger)
    requires Grown(kept.at, d.at)
    requires forall k :: k in d.at && k !in kept.at ==> d.at[k].derivedFrom == []
    requires forall k, p :: k in kept.at && p in kept.at[k].derivedFrom && p in d.at ==> p in kept.at
    ensures Closed(Citations(d)) <==> Closed(Citations(kept))
    ensures Acyclic(Citations(kept)) ==> Acyclic(Citations(d))
  {
    var g, h := Citations(kept), Citations(d);
    forall k | k in g ensures CitesUnknown(g, k) <==> CitesUnknown(h, k) {
      CitesUnknownMeans(g, k);
      CitesUnknownMeans(h, k);
    }
    forall k | k in h && k !in g ensures !CitesUnknown(h, k) {
      CitesUnknownMeans(h, k);
    }
    forall v | OnCycle(h, v) ensures OnCycle(g, v) {
      var p :| IsCycle(h, p, v);
      CycleWithinKept(g, h, p, v);
    }
  }

  lemma CycleWithinKept(g: Graph, h: Graph, p: seq<Id>, v: Id)
    requires IsCycle(h, p, v)
    requires forall k :: k in h && h[k] != [] ==> k in g && g[k] == h[k]
    ensures IsCycle(g, p, v)
  {
    forall i | 0 <= i < |p| - 1 ensures p[i] in g && g[p[i]] == h[p[i]] {
      assert p[i + 1] in h[p[i]];
    }
  }

  /** A surviving span cites only proposed ids, and no generated id was proposed. */
  lemma SurvivorsCiteSurvivors(cand: Ledger, kept: Ledger, d: Ledger, n: nat, x: Extraction, s: Setting)
    requires n <= |x.claims| && NoCollisions(x, s)
    requires forall k :: k in cand.at ==> exists e :: e in x.spans && e.id == k
    requires forall k :: k in kept.at ==> k in cand.at && kept.at[k] == cand.at[k] && !CitesUnknown(Citations(cand), k)
    requires forall k :: k in d.at && k !in kept.at ==> GeneratedEntry(k, d.at[k], n, x, s)
    ensures forall k, p :: k in kept.at && p in kept.at[k].derivedFrom && p in d.at ==> p in kept.at
  {
    forall q, e | q in d.at && q !in kept.at && e in x.spans ensures e.id != q {
      assert GeneratedEntry(q, d.at[q], n, x, s);
    }
    forall k, p | k in kept.at && p in kept.at[k].derivedFrom && p in d.at ensures p in kept.at {
      CitesUnknownMeans(Citations(cand), k);
      var e :| e in x.spans && e.id == p;
    }
  }

  /** `list(evidence_by_id.values())` read back gives the same dictionary. */
  lemma {:induction false} ValuesReadBack(d: Ledger, n: nat)
    requires KeyedById(d) && n <= |d.keys|
    ensures ReadsKeys(SpansById(d.Values()[..n]), d.keys[..n], d.at)
  {
    if n > 0 {
      ValuesReadBack(d, n - 1);
      var k := d.KeyAt(n - 1);
      assert d.keys[..n] == d.keys[..n - 1] + [k];
      assert k !in d.keys[..n - 1];
      ReadOneMore(SpansById(d.Values()[..n - 1]), d.keys[..n - 1], d.at, k);
      SpansByIdSnoc(d.Values(), n - 1);
    }
  }

  /** A dictionary with the given keys, in order, and the contents `at` has for them. */
  ghost predicate ReadsKeys(r: Ledger, keys: seq<Id>, at: map<Id, EvidenceSpan>) {
    r.Valid() && r.keys == keys && forall j :: j in keys ==> j in at && j in r.at && r.at[j] == at[j]
  }

  lemma SpansByIdSnoc(vs: seq<EvidenceSpan>, n: nat)
    requires n < |vs|
    ensures SpansById(vs[..n + 1]) == SpansById(vs[..n]).Put(vs[n].id, vs[n])
  {
    assert vs[..n + 1][..n] == vs[..n];
  }

  lemma ReadOneMore(r: Ledger, keys: seq<Id>, at: map<Id, EvidenceSpan>, k: Id)
    requires ReadsKeys(r, keys, at) && k !in keys && k in at
    ensures ReadsKeys(r.Put(k, at[k]), keys + [k], at)
  {
    assert k !in ToSet(keys);
  }

  lemma SameKeysSameDict(r: Ledger, d: Ledger)
    requires d.Valid() && ReadsKeys(r, d.keys, d.at)
    ensures r == d
  {
    assert r.at.Keys == d.at.Keys;
    forall k | k in d.at ensures r.at[k] == d.at[k] {
      assert k in ToSet(d.keys);
    }
    assert r.at == d.at;
  }

  lemma SpansRoundTrip(d: Ledger)
    requires KeyedById(d)
    ensures SpansById(d.Values()) == d
    ensures forall e :: e in d.Values() <==> e in d.at.Values
    ensures forall i, j :: 0 <= i < j < |d.Values()| ==> d.Values()[i].id != d.Values()[j].id
  {
    var vs := d.Values();
    ValuesReadBack(d, |d.keys|);
    assert vs[..|d.keys|] == vs && d.keys[..|d.keys|] == d.keys;
    SameKeysSameDict(SpansById(vs), d);
    forall e ensures e in vs <==> e in d.at.Values {
      if e in d.at.Values {
        var k :| k in d.at && d.at[k] == e;
        assert k in ToSet(d.keys);
        var i :| 0 <= i < |d.keys| && d.keys[i] == k;
        assert vs[i] == e;
      }
    }
    forall i, j | 0 <= i < j < |vs| ensures vs[i].id != vs[j].id {
      assert vs[i] == d.at[d.KeyAt(i)] && vs[j] == d.at[d.KeyAt(j)];
    }
  }

  // ---- the whole build ----

  /** What one claim adds to a build. */
  function BuildOne(b: Build, c: Claim, links: set<Id>, infer: Claim -> EvidenceClass, x: Extraction, s: Setting): Build
    requires KeyedById(b.ledger)
  {
    var out := ItemOutcome(c, infer(c), b.ledger, links, x, s);
    if out.Raised? then b.(raised := true)
    else Build(WithOutcome(b.claims, out), ChosenEvidence(c, infer(c), b.ledger, s).1, false)
  }

  ghost function BuildStep(links: set<Id>, infer: Claim -> EvidenceClass, x: Extraction, s: Setting): Step {
    (b: Build, c: Claim) => if KeyedById(b.ledger) then BuildOne(b, c, links, infer, x, s) else b
  }

  /** The first `n` claims, people and relationships first, rebuilt one after the other over a growing ledger. */
  ghost function BuildClaims(n: nat, kept: Ledger, links: set<Id>, infer: Claim -> EvidenceClass, x: Extraction,
                             s: Setting): Build
    requires n <= |x.claims|
  {
    Fold(n, Build([], kept, false), x.claims, BuildStep(links, infer, x, s))
  }

  lemma {:induction false} BuildKeyed(n: nat, kept: Ledger, links: set<Id>, infer: Claim -> EvidenceClass,
                                      x: Extraction, s: Setting)
    requires n <= |x.claims| && KeyedById(kept)
    ensures KeyedById(BuildClaims(n, kept, links, infer, x, s).ledger)
  {
    if n > 0 {
      BuildKeyed(n - 1, kept, links, infer, x, s);
      OneKeyed(BuildClaims(n - 1, kept, links, infer, x, s), x.claims[n - 1], links, infer, x, s);
    }
  }

  lemma OneKeyed(b: Build, c: Claim, links: set<Id>, infer: Claim -> EvidenceClass, x: Extraction, s: Setting)
    requires KeyedById(b.ledger)
    ensures KeyedById(BuildOne(b, c, links, infer, x, s).ledger)
  {
  }

  ghost predicate Named(id: Id, code: IssueCode, issues: seq<Issue>) {
    Issue(Some(id), code, []) in issues
  }

  /** Every lost claim among the first `n` is named in an issue for missing evidence. */
  ghost predicate LostNamed(n: nat, issues: seq<Issue>, claims: seq<Claim>, survives: int -> bool)
    requires n <= |claims|
  {
    forall i :: 0 <= i < n && !survives(i) ==> Named(claims[i].ref.id, ObjectMissingEvidence, issues)
  }

  ghost function Survival(kept: Ledger, links: set<Id>, infer: Claim -> EvidenceClass, x: Extraction, s: Setting)
    : int -> bool
  {
    (i: int) => 0 <= i < |x.claims| && Survives(i, kept, links, infer, x, s)
  }

  ghost predicate LostAreNamed(n: nat, issues: seq<Issue>, kept: Ledger, links: set<Id>, infer: Claim -> EvidenceClass,
                               x: Extraction, s: Setting)
    requires n <= |x.claims|
  {
    LostNamed(n, issues, x.claims, Survival(kept, links, infer, x, s))
  }

  /** Where the claim loops are after `i` claims. */
  ghost predicate BuildingSoFar(i: nat, b: Build, issues: seq<Issue>, kept: Ledger, links: set<Id>,
                                infer: Claim -> EvidenceClass, x: Extraction, s: Setting)
  {
    && i <= |x.claims| && KeyedById(b.ledger)
    && b == BuildClaims(i, kept, links, infer, x, s)
    && (!b.raised ==> issues == IssuesOf(i, kept, links, infer, x, s))
  }

  /** What the turn of claim `i` reports. */
  ghost function ReportOf(kept: Ledger, links: set<Id>, infer: Claim -> EvidenceClass, x: Extraction, s: Setting)
    : int -> seq<Issue>
  {
    (i: int) =>
      if 0 <= i < |x.claims| then TurnIssues(x.claims[i], BuildClaims(i, kept, links, infer, x, s).ledger.at, links)
      else []
  }

  /** What the first `n` turns report, one after the other. */
  ghost function Reported(n: nat, report: int -> seq<Issue>): seq<Issue> {
    if n == 0 then [] else Reported(n - 1, report) + report(n - 1)
  }

  ghost function IssuesOf(n: nat, kept: Ledger, links: set<Id>, infer: Claim -> EvidenceClass, x: Extraction,
                          s: Setting): seq<Issue>
  {
    Reported(n, ReportOf(kept, links, infer, x, s))
  }

  /** The claim loops; an exception ends them. */
  method MaterializeClaims(kept: Ledger, links: set<Id>, infer: Claim -> EvidenceClass, x: Extraction, s: Setting)
    returns (b: Build, issues: seq<Issue>)
    requires KeyedById(kept)
    ensures b == BuildClaims(|x.claims|, kept, links, infer, x, s) && KeyedById(b.ledger)
    ensures !b.raised ==> issues == IssuesOf(|x.claims|, kept, links, infer, x, s)
  {
    var builder := new LedgerBuilder(kept, []);
    b := Build([], kept, false);
    NothingBuilt(b, kept, links, infer, x, s);
    var i := 0;
    while i < |x.claims| && !b.raised
      invariant i <= |x.claims| && builder.Valid() && fresh(builder)
      invariant BuildingSoFar(i, b, builder.issues, kept, links, infer, x, s)
      invariant !b.raised ==> b.ledger == builder.evidence
    {
      b := NextClaim(builder, b, i, kept, links, infer, x, s);
      i := i + 1;
    }
    issues := builder.issues;
    AllBuilt(i, b, issues, kept, links, infer, x, s);
  }

  lemma NothingBuilt(b: Build, kept: Ledger, links: set<Id>, infer: Claim -> EvidenceClass, x: Extraction, s: Setting)
    requires KeyedById(kept) && b == Build([], kept, false)
    ensures BuildingSoFar(0, b, [], kept, links, infer, x, s)
  {
  }

  lemma AllBuilt(i: nat, b: Build, issues: seq<Issue>, kept: Ledger, links: set<Id>, infer: Claim -> EvidenceClass,
                 x: Extraction, s: Setting)
    requires BuildingSoFar(i, b, issues, kept, links, infer, x, s) && (i == |x.claims| || b.raised)
    ensures b == BuildClaims(|x.claims|, kept, links, infer, x, s) && KeyedById(b.ledger)
    ensures !b.raised ==> issues == IssuesOf(|x.claims|, kept, links, infer, x, s)
  {
    if b.raised {
      FoldRaised(i, |x.claims|, Build([], kept, false), x.claims, BuildStep(links, infer, x, s));
    }
  }

  /** One turn of the claim loops. */
  method NextClaim(builder: LedgerBuilder, b: Build, i: nat, kept: Ledger, links: set<Id>,
                   infer: Claim -> EvidenceClass, x: Extraction, s: Setting) returns (next: Build)
    requires i < |x.claims| && builder.Valid() && builder.evidence == b.ledger && !b.raised
    requires BuildingSoFar(i, b, builder.issues, kept, links, infer, x, s)
    modifies builder
    ensures builder.Valid() && (!next.raised ==> builder.evidence == next.ledger)
    ensures BuildingSoFar(i + 1, next, builder.issues, kept, links, infer, x, s)
  {
    next := BuildNext(builder, b, x.claims[i], links, infer, x, s);
    FoldLast(i, Build([], kept, false), x.claims, BuildStep(links, infer, x, s));
  }

  /** Among the issues every lost claim is named. */
  lemma IssuesNameLost(n: nat, kept: Ledger, links: set<Id>, infer: Claim -> EvidenceClass, x: Extraction, s: Setting)
    requires n <= |x.claims|
    ensures LostAreNamed(n, IssuesOf(n, kept, links, infer, x, s), kept, links, infer, x, s)
  {
    var survives, report := Survival(kept, links, infer, x, s), ReportOf(kept, links, infer, x, s);
    forall i | 0 <= i < n ensures survives(i) || Named(x.claims[i].ref.id, ObjectMissingEvidence, report(i)) {
      LossIsReported(i, kept, links, infer, x, s);
    }
    ReportsNameLost(n, x.claims, survives, report);
  }

  lemma {:induction false} ReportsNameLost(n: nat, claims: seq<Claim>, survives: int -> bool,
                                           report: int -> seq<Issue>)
    requires n <= |claims|
    requires forall i :: 0 <= i < n ==> survives(i) || Named(claims[i].ref.id, ObjectMissingEvidence, report(i))
    ensures LostNamed(n, Reported(n, report), claims, survives)
  {
    if n > 0 {
      ReportsNameLost(n - 1, claims, survives, report);
      LostOneMore(n - 1, Reported(n - 1, report), report(n - 1), claims, survives);
    }
  }

  lemma LossIsReported(i: nat, kept: Ledger, links: set<Id>, infer: Claim -> EvidenceClass, x: Extraction, s: Setting)
    requires i < |x.claims|
    ensures Survival(kept, links, infer, x, s)(i) ||
            Named(x.claims[i].ref.id, ObjectMissingEvidence, ReportOf(kept, links, infer, x, s)(i))
  {
    var c, ev := x.claims[i], BuildClaims(i, kept, links, infer, x, s).ledger.at;
    if !HasEvidence(c, ev) {
      DroppedIsReported(c, ev);
    }
  }

  lemma LostOneMore(i: nat, before: seq<Issue>, more: seq<Issue>, claims: seq<Claim>, survives: int -> bool)
    requires i < |claims| && LostNamed(i, before, claims, survives)
    requires !survives(i) ==> Named(claims[i].ref.id, ObjectMissingEvidence, more)
    ensures LostNamed(i + 1, before + more, claims, survives)
  {
    forall j | 0 <= j < i && !survives(j) ensures Named(claims[j].ref.id, ObjectMissingEvidence, before) {
    }
  }

  method BuildNext(builder: LedgerBuilder, b: Build, c: Claim, links: set<Id>, infer: Claim -> EvidenceClass,
                   x: Extraction, s: Setting) returns (next: Build)
    requires builder.Valid() && builder.evidence == b.ledger && !b.raised
    modifies builder
    ensures builder.Valid() && KeyedById(next.ledger)
    ensures next == BuildStep(links, infer, x, s)(b, c)
    ensures !next.raised ==> builder.evidence == next.ledger
    ensures !next.raised ==> builder.issues == old(builder.issues) + TurnIssues(c, b.ledger.at, links)
  {
    var out := builder.MaterializeItem(c, infer(c), links, x, s);
    if out.Raised? {
      return b.(raised := true);
    }
    next := Build(WithOutcome(b.claims, out), builder.evidence, false);
  }

  /** `r` is a run of turns over these claims that leads from the dictionary `start` to the build `b`. */
  ghost predicate RunTo(r: Trace, claims: seq<Claim>, start: map<Id, EvidenceSpan>, b: Build, issues: seq<Issue>,
                        links: set<Id>, infer: Claim -> EvidenceClass, x: Extraction, s: Setting)
  {
    && IsRun(r, claims, links, infer, x, s)
    && r.ledgers[0] == start && r.ledgers[|claims|] == b.ledger.at
    && Present(r.outs) == b.claims && Joined(r.notes) == issues
  }

  /** A build that raises nothing is a run of turns, and its issues are what the turns report. */
  lemma {:induction false} BuildIsRun(n: nat, kept: Ledger, links: set<Id>, infer: Claim -> EvidenceClass,
                                      x: Extraction, s: Setting) returns (r: Trace)
    requires n <= |x.claims| && KeyedById(kept) && !BuildClaims(n, kept, links, infer, x, s).raised
    ensures RunTo(r, x.claims[..n], kept.at, BuildClaims(n, kept, links, infer, x, s),
                  IssuesOf(n, kept, links, infer, x, s), links, infer, x, s)
  {
    if n == 0 {
      r := Trace([kept.at], [], []);
      EmptyRun(kept, links, infer, x, s);
    } else {
      BuildSnoc(n - 1, kept, links, infer, x, s);
      r := BuildIsRun(n - 1, kept, links, infer, x, s);
      r := RunStep(n - 1, r, kept, links, infer, x, s);
    }
  }

  lemma RunStep(n: nat, r: Trace, kept: Ledger, links: set<Id>, infer: Claim -> EvidenceClass, x: Extraction,
                s: Setting) returns (more: Trace)
    requires n < |x.claims| && KeyedById(kept) && !BuildClaims(n + 1, kept, links, infer, x, s).raised
    requires RunTo(r, x.claims[..n], kept.at, BuildClaims(n, kept, links, infer, x, s),
                   IssuesOf(n, kept, links, infer, x, s), links, infer, x, s)
    ensures RunTo(more, x.claims[..n + 1], kept.at, BuildClaims(n + 1, kept, links, infer, x, s),
                  IssuesOf(n + 1, kept, links, infer, x, s), links, infer, x, s)
  {
    BuildSnoc(n, kept, links, infer, x, s);
    IssuesSnoc(n, kept, links, infer, x, s);
    PrefixSnoc(x.claims, n);
    more := RunOn(r, kept.at, BuildClaims(n, kept, links, infer, x, s), BuildClaims(n + 1, kept, links, infer, x, s),
                  x.claims[n], x.claims[..n], x.claims[..n + 1], IssuesOf(n, kept, links, infer, x, s),
                  IssuesOf(n + 1, kept, links, infer, x, s), links, infer, x, s);
  }

  lemma PrefixSnoc(claims: seq<Claim>, n: nat)
    requires n < |claims|
    ensures claims[..n + 1] == claims[..n] + [claims[n]]
  {
  }

  lemma EmptyRun(kept: Ledger, links: set<Id>, infer: Claim -> EvidenceClass, x: Extraction, s: Setting)
    ensures RunTo(Trace([kept.at], [], []), x.claims[..0], kept.at, BuildClaims(0, kept, links, infer, x, s),
                  IssuesOf(0, kept, links, infer, x, s), links, infer, x, s)
  {
  }

  lemma IssuesSnoc(n: nat, kept: Ledger, links: set<Id>, infer: Claim -> EvidenceClass, x: Extraction, s: Setting)
    requires n < |x.claims|
    ensures IssuesOf(n + 1, kept, links, infer, x, s) ==
            IssuesOf(n, kept, links, infer, x, s) +
            TurnIssues(x.claims[n], BuildClaims(n, kept, links, infer, x, s).ledger.at, links)
  {
  }

  lemma BuildSnoc(n: nat, kept: Ledger, links: set<Id>, infer: Claim -> EvidenceClass, x: Extraction, s: Setting)
    requires n < |x.claims| && KeyedById(kept) && !BuildClaims(n + 1, kept, links, infer, x, s).raised
    ensures var b := BuildClaims(n, kept, links, infer, x, s);
      && KeyedById(b.ledger) && !b.raised
      && BuildClaims(n + 1, kept, links, infer, x, s) == BuildOne(b, x.claims[n], links, infer, x, s)
  {
    BuildKeyed(n, kept, links, infer, x, s);
  }

  lemma RunOn(r: Trace, start: map<Id, EvidenceSpan>, b: Build, next: Build, c: Claim, claims: seq<Claim>,
              longer: seq<Claim>, issues: seq<Issue>, more: seq<Issue>, links: set<Id>, infer: Claim -> EvidenceClass,
              x: Extraction, s: Setting) returns (r': Trace)
    requires KeyedById(b.ledger) && RunTo(r, claims, start, b, issues, links, infer, x, s)
    requires longer == claims + [c] && next == BuildOne(b, c, links, infer, x, s) && !next.raised
    requires more == issues + TurnIssues(c, b.ledger.at, links)
    ensures RunTo(r', longer, start, next, more, links, infer, x, s)
  {
    var out := ItemOutcome(c, infer(c), b.ledger, links, x, s);
    var after := ChosenEvidence(c, infer(c), b.ledger, s).1.at;
    var kept := if out.Kept? then Some(out.claim) else None;
    OutcomeIsTurn(c, infer(c), b.ledger, links, x, s);
    IssuesAreReport(c, b.ledger.at, links);
    OneMoreTurn(r, claims, c, after, kept, TurnIssues(c, b.ledger.at, links), links, infer, x, s);
    r' := Trace(r.ledgers + [after], r.outs + [kept], r.notes + [TurnIssues(c, b.ledger.at, links)]);
  }

  /** Under the hypotheses nothing is raised and the build invariant holds after every claim. */
  lemma BuildIsSound(n: nat, kept: Ledger, links: set<Id>, infer: Claim -> EvidenceClass, x: Extraction, s: Setting)
    requires n <= |x.claims| && KeyedById(kept) && WellFormedTranscript(s.t) && Hypotheses(x, s)
    requires forall k :: k in kept.at ==> exists e :: e in x.spans && e.id == k
    ensures var b := BuildClaims(n, kept, links, infer, x, s);
      !b.raised && BuildInvariant(n, kept.at, b.ledger.at, b.claims, links, x, s)
  {
    var step := BuildStep(links, infer, x, s);
    var inv := (k: nat, b: Build) => SoundAfter(k, b, kept, links, x, s);
    assert MentionIds([]) == MentionIds(x.claims[..0]);
    forall k: nat, b: Build | k < n ensures Handles(k, b, x.claims, step, inv) {
      if SoundAfter(k, b, kept, links, x, s) {
        OneIsSound(k, b, kept, links, infer, x, s);
        OneKeyed(b, x.claims[k], links, infer, x, s);
      }
    }
    FoldHandles(n, Build([], kept, false), x.claims, step, inv);
  }

  ghost predicate SoundAfter(k: nat, b: Build, kept: Ledger, links: set<Id>, x: Extraction, s: Setting) {
    && k <= |x.claims| && !b.raised && KeyedById(b.ledger)
    && BuildInvariant(k, kept.at, b.ledger.at, b.claims, links, x, s)
  }

  lemma OneIsSound(k: nat, b: Build, kept: Ledger, links: set<Id>, infer: Claim -> EvidenceClass, x: Extraction,
                   s: Setting)
    requires k < |x.claims| && KeyedById(b.ledger) && WellFormedTranscript(s.t) && Hypotheses(x, s)
    requires forall k :: k in kept.at ==> exists e :: e in x.spans && e.id == k
    requires BuildInvariant(k, kept.at, b.ledger.at, b.claims, links, x, s)
    ensures var r := BuildOne(b, x.claims[k], links, infer, x, s);
      !r.raised && BuildInvariant(k + 1, kept.at, r.ledger.at, r.claims, links, x, s)
  {
    ItemKeepsInvariant(k, infer(x.claims[k]), kept.at, b.ledger, b.claims, links, x, s);
  }

  // ---- which claims survive ----

  /** Claim `i` is rebuilt: it may fall back on its segments, or it has usable evidence when its turn comes. */
  ghost predicate Survives(i: nat, kept: Ledger, links: set<Id>, infer: Claim -> EvidenceClass, x: Extraction,
                           s: Setting)
    requires i < |x.claims|
  {
    HasEvidence(x.claims[i], BuildClaims(i, kept, links, infer, x, s).ledger.at)
  }

  /** The identities of the surviving claims among the first `n`, in order. */
  ghost function SurvivingRefs(n: nat, kept: Ledger, links: set<Id>, infer: Claim -> EvidenceClass, x: Extraction,
                               s: Setting): seq<ClaimRef>
    requires n <= |x.claims|
  {
    if n == 0 then []
    else SurvivingRefs(n - 1, kept, links, infer, x, s) +
         if Survives(n - 1, kept, links, infer, x, s) then [x.claims[n - 1].ref] else []
  }

  function RefsOf(claims: seq<Claim>): (r: seq<ClaimRef>)
    ensures |r| == |claims| && forall i :: 0 <= i < |claims| ==> r[i] == claims[i].ref
  {
    seq(|claims|, i requires 0 <= i < |claims| => claims[i].ref)
  }

  lemma OneMoreRef(b: Build, c: Claim, links: set<Id>, infer: Claim -> EvidenceClass, x: Extraction, s: Setting)
    requires KeyedById(b.ledger) && !BuildOne(b, c, links, infer, x, s).raised
    ensures RefsOf(BuildOne(b, c, links, infer, x, s).claims) ==
            RefsOf(b.claims) + if HasEvidence(c, b.ledger.at) then [c.ref] else []
  {
  }

  /** The claims of a build are exactly the surviving ones, in order. */
  lemma {:induction false} BuiltAreSurvivors(n: nat, kept: Ledger, links: set<Id>, infer: Claim -> EvidenceClass,
                                             x: Extraction, s: Setting)
    requires n <= |x.claims| && KeyedById(kept) && !BuildClaims(n, kept, links, infer, x, s).raised
    ensures RefsOf(BuildClaims(n, kept, links, infer, x, s).claims) == SurvivingRefs(n, kept, links, infer, x, s)
  {
    if n > 0 {
      var b := BuildClaims(n - 1, kept, links, infer, x, s);
      BuiltAreSurvivors(n - 1, kept, links, infer, x, s);
      BuildKeyed(n - 1, kept, links, infer, x, s);
      OneMoreRef(b, x.claims[n - 1], links, infer, x, s);
    }
  }

  /**
   * Under the hypotheses a claim of another kind survives exactly if it cites, inside its own segments, a surviving
   * proposed span or a span generated for an earlier person or relationship.
   */
  lemma SurvivesIffSupported(i: nat, kept: Ledger, links: set<Id>, infer: Claim -> EvidenceClass, x: Extraction,
                             s: Setting)
    requires i < |x.claims| && KeyedById(kept) && WellFormedTranscript(s.t) && Hypotheses(x, s)
    requires forall k :: k in kept.at ==> exists e :: e in x.spans && e.id == k
    ensures var c, ev := x.claims[i], BuildClaims(i, kept, links, infer, x, s).ledger.at;
      && Grown(kept.at, ev)
      && (forall k :: k in ev && k !in kept.at ==> GeneratedEntry(k, ev[k], i, x, s))
      && (Survives(i, kept, links, infer, x, s) <==>
            FallbackAllowed(c.ref.kind) || exists e :: e in c.evidenceIds && e in ev && ev[e].segment in c.sources)
  {
    BuildIsSound(i, kept, links, infer, x, s);
    UsableMeans(x.claims[i], BuildClaims(i, kept, links, infer, x, s).ledger.at);
  }

  lemma UsableMeans(c: Claim, ev: map<Id, EvidenceSpan>)
    ensures UsableEvidence(c, ev) != [] <==> exists e :: e in c.evidenceIds && e in ev && ev[e].segment in c.sources
  {
    var usable := UsableEvidence(c, ev);
    if usable != [] {
      assert usable[0] in usable;
    }
  }

  // ---- the contract that is built ----

  /** The proposed derivation graph: candidate spans that passed their own check. */
  function Proposed(x: Extraction, s: Setting): Graph {
    Citations(CandidateLedger(x.spans, x, s))
  }

  /** The ids of the proposed spans that the derivation filter keeps. */
  function SurvivorIds(x: Extraction, s: Setting): set<Id> {
    DerivationSearch.Survivors(Proposed(x, s), CandidateLedger(x.spans, x, s).keys)
  }

  /** The ledger after the derivation filter. */
  function KeptLedger(x: Extraction, s: Setting): (d: Ledger)
    ensures KeyedById(d) && d.at.Keys == SurvivorIds(x, s)
  {
    var cand := CandidateLedger(x.spans, x, s);
    EvidenceDerivations.RemainingLedger(cand, cand.at.Keys - SurvivorIds(x, s));
    cand.Without(cand.at.Keys - SurvivorIds(x, s))
  }

  function ContractLinks(x: Extraction, s: Setting, named: CoreferenceLink -> bool): seq<CoreferenceLink> {
    AcceptedLinks(x.links, KeptLedger(x, s).at, RawText(s.t).Keys, MentionIds(x.claims), named)
  }

  ghost function ContractBuild(x: Extraction, s: Setting, infer: Claim -> EvidenceClass,
                               named: CoreferenceLink -> bool): (b: Build)
    ensures KeyedById(b.ledger)
  {
    var links := LinkIds(ContractLinks(x, s, named));
    BuildKeyed(|x.claims|, KeptLedger(x, s), links, infer, x, s);
    BuildClaims(|x.claims|, KeptLedger(x, s), links, infer, x, s)
  }

  /** The minimum lengths that the constructor of the transcription activity demands. */
  predicate ActivitiesOk(s: Setting) {
    s.t.asrModel != "" && s.t.asrRevision != ""
  }

  /** What `materialize_extraction_contract_v2` returns; `None` when building raises. */
  ghost function Contract(x: Extraction, s: Setting, infer: Claim -> EvidenceClass,
                          named: CoreferenceLink -> bool): Option<Extraction> {
    var b := ContractBuild(x, s, infer, named);
    if !ActivitiesOk(s) || b.raised then None
    else
      var conflicts := AcceptedConflicts(x.conflicts, ClaimByRef(b.claims), b.ledger.at.Keys);
      Some(Extraction(true, x.recording, x.speakerId, x.speakerName, s.Activities(), b.ledger.Values(),
                      ContractLinks(x, s, named), Synced(b.claims, conflicts), conflicts))
  }

  /**
   * Nothing disappears silently: each proposed claim, link and conflict survives, or an issue names it with the rule it
   * breaks; the issues of the candidate check and of the derivation filter are there too.
   */
  ghost predicate AllReported(y: Extraction, issues: seq<Issue>, x: Extraction, s: Setting,
                              infer: Claim -> EvidenceClass, named: CoreferenceLink -> bool)
  {
    var kept, links := KeptLedger(x, s), LinkIds(ContractLinks(x, s, named));
    && RefsOf(y.claims) == SurvivingRefs(|x.claims|, kept, links, infer, x, s)
    && LostAreNamed(|x.claims|, issues, kept, links, infer, x, s)
    && (forall l :: l in x.links ==> LinkAccounted(l, y.links, issues, x, s, named))
    && (forall k :: k in x.conflicts ==>
          (exists a :: a in y.conflicts && AcceptedAs(a, k)) || (exists i :: i in issues && Names(i, k.id)))
    && (forall i :: i in CandidateIssues(x.spans, x, s) ==> i in issues)
    && (forall i :: i in EvidenceDerivations.LedgerIssues(CandidateLedger(x.spans, x, s), SurvivorIds(x, s)) ==>
        i in issues)
  }

  ghost predicate LinkAccounted(l: CoreferenceLink, accepted: seq<CoreferenceLink>, issues: seq<Issue>, x: Extraction,
                                s: Setting, named: CoreferenceLink -> bool)
  {
    var verdict := LinkVerdict(l, KeptLedger(x, s).at, RawText(s.t).Keys, MentionIds(x.claims), named);
    if verdict.None? then l.(verification := Unreviewed) in accepted else Named(l.id, verdict.value, issues)
  }

  /**
   * The contract is what a run of turns over the proposed claims gives: the claims that came out, in order and with
   * nothing but their conflict ids changed afterwards, and the last dictionary. The issues are those of the run between
   * those about spans and links and those about conflicts.
   */
  ghost predicate RebuiltByRun(r: Trace, y: Extraction, issues: seq<Issue>, x: Extraction, s: Setting,
                               infer: Claim -> EvidenceClass, named: CoreferenceLink -> bool)
  {
    var cand, kept := CandidateLedger(x.spans, x, s), KeptLedger(x, s).at;
    && IsRun(r, x.claims, LinkIds(y.links), infer, x, s)
    && r.ledgers[0] == kept && r.ledgers[|x.claims|] == SpansById(y.spans).at
    && |y.claims| == |Present(r.outs)|
    && (forall j :: 0 <= j < |y.claims| ==>
          y.claims[j] == Present(r.outs)[j].(conflictIds := y.claims[j].conflictIds))
    && issues == (if x.activities == [] then [] else [Issue(None, ModelProvenanceReplaced, [])]) +
                 CandidateIssues(x.spans, x, s) + EvidenceDerivations.LedgerIssues(cand, SurvivorIds(x, s)) +
                 LinkIssues(x.links, kept, RawText(s.t).Keys, MentionIds(x.claims), named) + Joined(r.notes) +
                 ConflictIssues(x.conflicts, ClaimByRef(Present(r.outs)), r.ledgers[|x.claims|].Keys)
  }

  /** `y` is the built claims, the final dictionary and the accepted links, with conflicts closed over them. */
  ghost predicate Assembled(y: Extraction, d: Ledger, links: seq<CoreferenceLink>, built: seq<Claim>, x: Extraction,
                            s: Setting)
    requires KeyedById(d)
  {
    && y == Extraction(true, x.recording, x.speakerId, x.speakerName, s.Activities(), d.Values(), links, y.claims,
                       y.conflicts)
    && |y.claims| == |built|
    && (forall i :: 0 <= i < |built| ==> y.claims[i] == built[i].(conflictIds := y.claims[i].conflictIds))
    && ConflictsClosed(y)
  }

  lemma AssembledSpans(y: Extraction, ev0: map<Id, EvidenceSpan>, d: Ledger, links: seq<CoreferenceLink>,
                       built: seq<Claim>, x: Extraction, s: Setting)
    requires KeyedById(d) && Assembled(y, d, links, built, x, s)
    requires SpansOk(ev0, x, s) && BuildInvariant(|x.claims|, ev0, d.at, built, LinkIds(links), x, s)
    ensures MentionIds(y.claims) == MentionIds(x.claims)
    ensures forall e :: e in y.spans ==>
              SpanOk(e, RawText(s.t), s.readable, MentionIds(y.claims), ToSet(y.activities))
  {
    SpansRoundTrip(d);
    SameIndex(y.claims, built);
    assert x.claims[..|x.claims|] == x.claims;
    forall e | e in y.spans
      ensures SpanOk(e, RawText(s.t), s.readable, MentionIds(x.claims), ToSet(s.Activities()))
    {
      var k :| k in d.at && d.at[k] == e;
      if k !in ev0 {
        assert GeneratedEntry(k, d.at[k], |x.claims|, x, s);
      }
    }
  }

  lemma LinkOkGrows(l: CoreferenceLink, a: map<Id, EvidenceSpan>, b: map<Id, EvidenceSpan>, mentions: set<Id>)
    requires Grown(a, b) && LinkOk(l, a, mentions)
    ensures LinkOk(l, b, mentions)
  {
  }

  lemma AssembledClaims(y: Extraction, d: Ledger, links: seq<CoreferenceLink>, built: seq<Claim>, x: Extraction,
                        s: Setting)
    requires KeyedById(d) && Assembled(y, d, links, built, x, s) && s.t.recording == x.recording
    requires forall b :: b in built ==> Grounded(b, d.at, LinkIds(links), x, s)
    ensures forall c :: c in y.claims ==> ClaimOk(c, y, d.at)
  {
    forall c | c in y.claims ensures ClaimOk(c, y, d.at) {
      var i :| 0 <= i < |built| && y.claims[i] == c;
      var b := built[i];
      assert Grounded(b, d.at, LinkIds(links), x, s);
      SameEvidence(b, c, d.at);
    }
  }

  lemma SameEvidence(b: Claim, c: Claim, ev: map<Id, EvidenceSpan>)
    requires c == b.(conflictIds := c.conflictIds) && EvidenceBacked(b, ev)
    ensures EvidenceBacked(c, ev)
  {
  }

  /** Every span, link, conflict and claim of what was assembled passes the checker. */
  lemma AssembledObjects(y: Extraction, ev0: map<Id, EvidenceSpan>, d: Ledger, links: seq<CoreferenceLink>,
                         built: seq<Claim>, x: Extraction, s: Setting)
    requires KeyedById(d) && Assembled(y, d, links, built, x, s) && s.t.recording == x.recording
    requires SpansOk(ev0, x, s) && BuildInvariant(|x.claims|, ev0, d.at, built, LinkIds(links), x, s)
    requires forall l :: l in links ==> LinkOk(l, ev0, MentionIds(x.claims))
    ensures MentionIds(y.claims) == MentionIds(x.claims)
    ensures ObjectsOk(s.t, s.readable, y, d.at)
  {
    SpansRoundTrip(d);
    AssembledSpans(y, ev0, d, links, built, x, s);
    forall l | l in links ensures LinkOk(l, d.at, MentionIds(y.claims)) {
      LinkOkGrows(l, ev0, d.at, MentionIds(y.claims));
    }
    AssembledClaims(y, d, links, built, x, s);
    if y.claims != [] {
      assert ClaimOk(y.claims[0], y, d.at);
      assert y.claims[0].evidenceIds[0] in d.at;
    }
  }

  /** The graph of the result is acyclic, and closed exactly when the survivors are. */
  lemma AssembledGraph(cand: Ledger, kept: Ledger, found: seq<Issue>, d: Ledger, n: nat, x: Extraction, s: Setting)
    requires n <= |x.claims| && NoCollisions(x, s)
    requires EvidenceDerivations.Filtered(Citations(cand), kept.at.Keys, found)
    requires Citations(kept) == Keep(Citations(cand), kept.at.Keys)
    requires forall k :: k in kept.at ==> k in cand.at && kept.at[k] == cand.at[k]
    requires forall k :: k in cand.at ==> exists e :: e in x.spans && e.id == k
    requires Grown(kept.at, d.at) && forall k :: k in d.at && k !in kept.at ==> GeneratedEntry(k, d.at[k], n, x, s)
    ensures Acyclic(Citations(d)) && (Closed(Citations(d)) <==> Closed(Keep(Citations(cand), kept.at.Keys)))
  {
    SurvivorsCiteSurvivors(cand, kept, d, n, x, s);
    GeneratedSpansAreIsolated(kept, d);
  }

  /** The per-object rules hold, nothing cycles, and the surviving spans are in the result as they were proposed. */
  ghost predicate SoundBuild(y: Extraction, x: Extraction, s: Setting) {
    var ev := SpansById(y.spans);
    && MentionIds(y.claims) == MentionIds(x.claims)
    && ObjectsOk(s.t, s.readable, y, ev.at)
    && Acyclic(Citations(ev))
    && Grown(KeptLedger(x, s).at, ev.at)
  }

  /** Exactly when the checker accepts, in terms of the citations that were proposed and their order. */
  ghost predicate AcceptedExactly(y: Extraction, x: Extraction, s: Setting) {
    var g := Proposed(x, s);
    && (ValidContract(s.t, s.readable, y) <==>
          EvidenceDerivations.NoCycleMember(g, SurvivorIds(x, s)) && EvidenceDerivations.FlawsSpread(g))
    && (DerivationOrders.SimpleCycles(g) ==>
          (ValidContract(s.t, s.readable, y) <==> EvidenceDerivations.FlawsSpread(g)))
  }

  /**
   * `materialize_extraction_contract_v2`. Every object it builds passes its own checks. The checker accepts the whole
   * if and only if no proposed span on a cycle survived and every span that cites a flawed one is flawed; the second
   * condition does not depend on the order of the spans, and is the only one when cycles are simple or there are none.
   */
  method Materialize(x: Extraction, s: Setting, infer: Claim -> EvidenceClass, named: CoreferenceLink -> bool)
    returns (y: Option<Extraction>, issues: seq<Issue>)
    requires WellFormed(x) && WellFormedTranscript(s.t)
    ensures y == Contract(x, s, infer, named)
    ensures y.Some? ==> AllReported(y.value, issues, x, s, infer, named)
    ensures y.Some? ==> y.value.v2 && WellFormed(y.value) && ConflictsClosed(y.value)
    ensures y.Some? ==> exists r :: RebuiltByRun(r, y.value, issues, x, s, infer, named)
    ensures Hypotheses(x, s) ==> y.Some? && SoundBuild(y.value, x, s) && AcceptedExactly(y.value, x, s)
  {
    issues := if x.activities == [] then [] else [Issue(None, ModelProvenanceReplaced, [])];
    if !ActivitiesOk(s) {
      return None, issues;
    }
    var cand, spanIssues := AcceptSpans(x, s);
    var kept, derivationIssues := EvidenceDerivations.FilterEvidenceDerivations(cand);
    var links, linkIssues := FilterLinks(x.links, kept.at, RawText(s.t).Keys, MentionIds(x.claims), named);
    AcceptedLinksDistinct(x.links, kept.at, RawText(s.t).Keys, MentionIds(x.claims), named);
    var b, claimIssues := MaterializeClaims(kept, LinkIds(links), infer, x, s);
    issues := issues + spanIssues + derivationIssues + linkIssues + claimIssues;
    if Hypotheses(x, s) {
      NeverRaises(x, s, infer, named);
    }
    if b.raised {
      return None, issues;
    }
    assert kept == KeptLedger(x, s) && links == ContractLinks(x, s, named);
    CollectedBefore(spanIssues, derivationIssues, linkIssues, claimIssues, x, s, infer, named);
    var final, all := Conclude(x, s, b, links, issues, infer, named);
    if Hypotheses(x, s) {
      BuildSucceeds(final, cand, kept, derivationIssues, links, b, infer, named, x, s);
    }
    return Some(final), all;
  }

  /** What is reported before the conflicts are looked at. */
  ghost function IssuesBefore(x: Extraction, s: Setting, infer: Claim -> EvidenceClass, named: CoreferenceLink -> bool)
    : seq<Issue>
  {
    (if x.activities == [] then [] else [Issue(None, ModelProvenanceReplaced, [])]) +
    CandidateIssues(x.spans, x, s) +
    EvidenceDerivations.LedgerIssues(CandidateLedger(x.spans, x, s), SurvivorIds(x, s)) +
    LinkIssues(x.links, KeptLedger(x, s).at, RawText(s.t).Keys, MentionIds(x.claims), named) +
    IssuesOf(|x.claims|, KeptLedger(x, s), LinkIds(ContractLinks(x, s, named)), infer, x, s)
  }

  lemma CollectedBefore(spanIssues: seq<Issue>, derivationIssues: seq<Issue>, linkIssues: seq<Issue>,
                        claimIssues: seq<Issue>, x: Extraction, s: Setting, infer: Claim -> EvidenceClass,
                        named: CoreferenceLink -> bool)
    requires spanIssues == CandidateIssues(x.spans, x, s)
    requires derivationIssues == EvidenceDerivations.LedgerIssues(CandidateLedger(x.spans, x, s), SurvivorIds(x, s))
    requires linkIssues == LinkIssues(x.links, KeptLedger(x, s).at, RawText(s.t).Keys, MentionIds(x.claims), named)
    requires claimIssues == IssuesOf(|x.claims|, KeptLedger(x, s), LinkIds(ContractLinks(x, s, named)), infer, x, s)
    ensures (if x.activities == [] then [] else [Issue(None, ModelProvenanceReplaced, [])]) + spanIssues +
              derivationIssues + linkIssues + claimIssues == IssuesBefore(x, s, infer, named)
  {
  }

  /** The last steps of `materialize_extraction_contract_v2`, after the claim loops. */
  method Conclude(x: Extraction, s: Setting, b: Build, links: seq<CoreferenceLink>, issues: seq<Issue>,
                  ghost infer: Claim -> EvidenceClass, ghost named: CoreferenceLink -> bool)
    returns (y: Extraction, all: seq<Issue>)
    requires WellFormed(x) && ActivitiesOk(s) && DistinctLinks(links) && links == ContractLinks(x, s, named)
    requires b == ContractBuild(x, s, infer, named) && !b.raised && issues == IssuesBefore(x, s, infer, named)
    ensures Contract(x, s, infer, named) == Some(y) && Assembled(y, b.ledger, links, b.claims, x, s)
    ensures AllReported(y, all, x, s, infer, named)
    ensures WellFormed(y)
    ensures exists r :: RebuiltByRun(r, y, all, x, s, infer, named)
  {
    var conflictIssues;
    y, conflictIssues := Finish(x, s, b.ledger, links, b.claims);
    all := issues + conflictIssues;
    EverythingReported(y, b, conflictIssues, all, x, s, infer, named);
    ContractIsRun(y, b, all, x, s, infer, named);
  }

  /** A contract comes from a run of turns. */
  lemma ContractIsRun(y: Extraction, b: Build, issues: seq<Issue>, x: Extraction, s: Setting,
                      infer: Claim -> EvidenceClass, named: CoreferenceLink -> bool)
    requires b == ContractBuild(x, s, infer, named) && !b.raised
    requires Assembled(y, b.ledger, ContractLinks(x, s, named), b.claims, x, s)
    requires issues == IssuesBefore(x, s, infer, named) +
                       ConflictIssues(x.conflicts, ClaimByRef(b.claims), b.ledger.at.Keys)
    ensures exists r :: RebuiltByRun(r, y, issues, x, s, infer, named)
  {
    var r := BuildIsRun(|x.claims|, KeptLedger(x, s), LinkIds(ContractLinks(x, s, named)), infer, x, s);
    assert x.claims[..|x.claims|] == x.claims;
    SpansRoundTrip(b.ledger);
    assert RebuiltByRun(r, y, issues, x, s, infer, named);
  }

  lemma EverythingReported(y: Extraction, b: Build, conflictIssues: seq<Issue>, issues: seq<Issue>, x: Extraction,
                           s: Setting, infer: Claim -> EvidenceClass, named: CoreferenceLink -> bool)
    requires b == ContractBuild(x, s, infer, named) && !b.raised && Contract(x, s, infer, named) == Some(y)
    requires conflictIssues == ConflictIssues(x.conflicts, ClaimByRef(b.claims), b.ledger.at.Keys)
    requires issues == IssuesBefore(x, s, infer, named) + conflictIssues
    ensures AllReported(y, issues, x, s, infer, named)
  {
    var kept, links := KeptLedger(x, s), LinkIds(ContractLinks(x, s, named));
    BuiltAreSurvivors(|x.claims|, kept, links, infer, x, s);
    assert RefsOf(y.claims) == RefsOf(b.claims);
    LossesReported(issues, conflictIssues, x, s, infer, named);
    forall l | l in x.links ensures LinkAccounted(l, y.links, issues, x, s, named) {
      EveryLinkAccounted(x.links, kept.at, RawText(s.t).Keys, MentionIds(x.claims), named, l);
    }
    forall k | k in x.conflicts
      ensures (exists a :: a in y.conflicts && AcceptedAs(a, k)) || (exists i :: i in issues && Names(i, k.id))
    {
      EveryRejectionReported(x.conflicts, ClaimByRef(b.claims), b.ledger.at.Keys, k);
    }
  }

  lemma LossesReported(issues: seq<Issue>, rest: seq<Issue>, x: Extraction, s: Setting, infer: Claim -> EvidenceClass,
                       named: CoreferenceLink -> bool)
    requires issues == IssuesBefore(x, s, infer, named) + rest
    ensures LostAreNamed(|x.claims|, issues, KeptLedger(x, s), LinkIds(ContractLinks(x, s, named)), infer, x, s)
  {
    var kept, links := KeptLedger(x, s), LinkIds(ContractLinks(x, s, named));
    IssuesNameLost(|x.claims|, kept, links, infer, x, s);
    MoreIssues(|x.claims|, IssuesOf(|x.claims|, kept, links, infer, x, s), issues, x.claims,
               Survival(kept, links, infer, x, s));
  }

  lemma MoreIssues(n: nat, few: seq<Issue>, many: seq<Issue>, claims: seq<Claim>, survives: int -> bool)
    requires n <= |claims| && LostNamed(n, few, claims, survives) && forall i :: i in few ==> i in many
    ensures LostNamed(n, many, claims, survives)
  {
    forall j | 0 <= j < n && !survives(j) ensures Named(claims[j].ref.id, ObjectMissingEvidence, many) {
      assert Named(claims[j].ref.id, ObjectMissingEvidence, few);
    }
  }

  /** Under the hypotheses every proposed extraction has a contract. */
  lemma NeverRaises(x: Extraction, s: Setting, infer: Claim -> EvidenceClass, named: CoreferenceLink -> bool)
    requires WellFormedTranscript(s.t) && Hypotheses(x, s)
    ensures Contract(x, s, infer, named).Some?
  {
    KeptWereProposed(x, s);
    BuildIsSound(|x.claims|, KeptLedger(x, s), LinkIds(ContractLinks(x, s, named)), infer, x, s);
  }

  lemma KeptWereProposed(x: Extraction, s: Setting)
    ensures SpansOk(KeptLedger(x, s).at, x, s)
    ensures forall k :: k in KeptLedger(x, s).at ==> exists e :: e in x.spans && e.id == k
  {
    CandidatesAreOk(x.spans, x, s);
  }

  /** Why the build is sound and accepted exactly as claimed. */
  lemma BuildSucceeds(y: Extraction, cand: Ledger, kept: Ledger, found: seq<Issue>, links: seq<CoreferenceLink>,
                      b: Build,
                      infer: Claim -> EvidenceClass, named: CoreferenceLink -> bool, x: Extraction, s: Setting)
    requires WellFormedTranscript(s.t) && Hypotheses(x, s)
    requires cand == CandidateLedger(x.spans, x, s) && kept == KeptLedger(x, s)
    requires EvidenceDerivations.Filtered(Proposed(x, s), SurvivorIds(x, s), found)
    requires links == AcceptedLinks(x.links, kept.at, RawText(s.t).Keys, MentionIds(x.claims), named)
    requires b == BuildClaims(|x.claims|, kept, LinkIds(links), infer, x, s)
    requires KeyedById(b.ledger) && Assembled(y, b.ledger, links, b.claims, x, s)
    ensures SoundBuild(y, x, s) && AcceptedExactly(y, x, s)
  {
    var d := b.ledger;
    KeptWereProposed(x, s);
    CandidatesAreOk(x.spans, x, s);
    EvidenceDerivations.RemainingLedger(cand, cand.at.Keys - SurvivorIds(x, s));
    AcceptedLinksAreOk(x.links, kept.at, RawText(s.t).Keys, MentionIds(x.claims), named);
    BuildIsSound(|x.claims|, kept, LinkIds(links), infer, x, s);
    AssembledObjects(y, kept.at, d, links, b.claims, x, s);
    AssembledGraph(cand, kept, found, d, |x.claims|, x, s);
    SpansRoundTrip(d);
    SurvivorsDecide(y, cand, found, x, s);
  }

  lemma SurvivorsDecide(y: Extraction, cand: Ledger, found: seq<Issue>, x: Extraction, s: Setting)
    requires cand == CandidateLedger(x.spans, x, s)
    requires EvidenceDerivations.Filtered(Proposed(x, s), SurvivorIds(x, s), found)
    requires ValidContract(s.t, s.readable, y) <==> Closed(Keep(Proposed(x, s), SurvivorIds(x, s)))
    ensures AcceptedExactly(y, x, s)
  {
    EvidenceDerivations.SurvivorsClosed(Proposed(x, s), SurvivorIds(x, s), found);
    if DerivationOrders.SimpleCycles(Proposed(x, s)) {
      DerivationOrders.SimpleCyclesAreDropped(Proposed(x, s), cand.keys);
    }
  }

  /** The `model_copy` and the conflict steps at the end. */
  method Finish(x: Extraction, s: Setting, d: Ledger, links: seq<CoreferenceLink>, built: seq<Claim>)
    returns (final: Extraction, issues: seq<Issue>)
    requires WellFormed(x) && KeyedById(d) && DistinctLinks(links)
    ensures Assembled(final, d, links, built, x, s) && WellFormed(final)
    ensures final.conflicts == AcceptedConflicts(x.conflicts, ClaimByRef(built), d.at.Keys)
    ensures final.claims == Synced(built, final.conflicts)
    ensures issues == ConflictIssues(x.conflicts, ClaimByRef(built), d.at.Keys)
  {
    var middle := Extraction(true, x.recording, x.speakerId, x.speakerName, s.Activities(), d.Values(), links, built,
                             x.conflicts);
    SpansRoundTrip(d);
    final, issues := CloseConflicts(middle);
    AcceptedConflictsWellFormed(x.conflicts, ClaimByRef(built), SpansById(d.Values()).at.Keys);
  }

  lemma {:induction false} AcceptedConflictsWellFormed(ks: seq<ConflictSet>, index: map<ClaimRef, Claim>,
                                                       known: set<Id>)
    requires forall i, j :: 0 <= i < j < |ks| ==> ks[i].id != ks[j].id
    requires forall k :: k in ks ==> Distinct(k.refs)
    ensures var r := AcceptedConflicts(ks, index, known);
      && (forall i, j :: 0 <= i < j < |r| ==> r[i].id != r[j].id)
      && (forall a :: a in r ==> Distinct(a.refs) && exists i :: 0 <= i < |ks| && ks[i].id == a.id)
  {
    if ks != [] {
      var front, k := ks[..|ks| - 1], ks[|ks| - 1];
      AcceptedConflictsWellFormed(front, index, known);
      assert k in ks && forall f :: f in front ==> f in ks;
      OneMoreConflict(ks, AcceptedConflicts(front, index, known), AcceptedConflicts(ks, index, known));
    }
  }

  lemma OneMoreConflict(ks: seq<ConflictSet>, r: seq<ConflictSet>, more: seq<ConflictSet>)
    requires ks != [] && forall i, j :: 0 <= i < j < |ks| ==> ks[i].id != ks[j].id
    requires ks[|ks| - 1] in ks && Distinct(ks[|ks| - 1].refs)
    requires (forall i, j :: 0 <= i < j < |r| ==> r[i].id != r[j].id)
    requires forall a :: a in r ==> Distinct(a.refs) && exists i :: 0 <= i < |ks| - 1 && ks[i].id == a.id
    requires more == r || (|more| == |r| + 1 && more[..|r|] == r && AcceptedAs(more[|r|], ks[|ks| - 1]))
    ensures (forall i, j :: 0 <= i < j < |more| ==> more[i].id != more[j].id)
    ensures forall a :: a in more ==> Distinct(a.refs) && exists i :: 0 <= i < |ks| && ks[i].id == a.id
  {
    var k := ks[|ks| - 1];
    forall a | a in r ensures a.id != k.id && exists i :: 0 <= i < |ks| && ks[i].id == a.id {
      var i :| 0 <= i < |ks| - 1 && ks[i].id == a.id;
    }
    forall a | a in more ensures a in r || AcceptedAs(a, k) {
      var i :| 0 <= i < |more| && more[i] == a;
      assert i < |r| ==> a == r[i];
    }
  }

  // ---- an extraction whose contract is rejected ----

  function QuotedSpan(id: Id, derivedFrom: seq<Id>): EvidenceSpan {
    EvidenceSpan(id, "s1", "born", RawTranscript, Some(0), Some(4), AExplicit, [], [], derivedFrom, None)
  }

  /** Span `a` is derived from `b`, and `b` from a span that was never proposed. */
  const PROPOSAL := Extraction(false, "r", "speaker", "Speaker", [], [QuotedSpan("a", ["b"]), QuotedSpan("b", ["z"])],
                               [], [], [])

  function RecordingOf(text: string): Setting {
    Setting(Transcript("r", "asr", "1", [Segment("s1", text)]), map[], (id: string) => id)
  }

  /** Both spans pass their own check, so the builder proposes the graph that keeps a dangling span. */
  lemma ProposalMeetsHypotheses()
    ensures var s := RecordingOf("born");
      && WellFormed(PROPOSAL) && WellFormedTranscript(s.t) && Hypotheses(PROPOSAL, s)
      && Proposed(PROPOSAL, s) == map["a" := ["b"], "b" := ["z"]]
  {
    ProposalIsWellFormed();
    ProposedCitations();
  }

  lemma ProposalIsWellFormed()
    ensures var s := RecordingOf("born"); WellFormed(PROPOSAL) && WellFormedTranscript(s.t) && Hypotheses(PROPOSAL, s)
  {
  }

  lemma ProposedCitations()
    ensures Proposed(PROPOSAL, RecordingOf("born")) == map["a" := ["b"], "b" := ["z"]]
  {
    var s := RecordingOf("born");
    var a, b := QuotedSpan("a", ["b"]), QuotedSpan("b", ["z"]);
    PassesItsCheck(a, s);
    PassesItsCheck(b, s);
    TwoCandidates(a, b, PROPOSAL, s);
    assert PROPOSAL.spans == [a, b];
    TwoCitations(CandidateLedger(PROPOSAL.spans, PROPOSAL, s), Stamped(a, s), Stamped(b, s));
  }

  lemma TwoCitations(d: Ledger, a: EvidenceSpan, b: EvidenceSpan)
    requires d.at == map["a" := a, "b" := b] && a.derivedFrom == ["b"] && b.derivedFrom == ["z"]
    ensures Citations(d) == map["a" := ["b"], "b" := ["z"]]
  {
    assert Citations(d).Keys == {"a", "b"};
  }

  lemma TwoCandidates(a: EvidenceSpan, b: EvidenceSpan, x: Extraction, s: Setting)
    requires Admissible(a, x, s) && Admissible(b, x, s) && a.id != b.id
    ensures CandidateLedger([a, b], x, s).at == map[a.id := Stamped(a, s), b.id := Stamped(b, s)]
  {
    assert [a, b][..1] == [a] && [a][..0] == [];
    assert CandidateLedger([], x, s).at == map[];
    assert CandidateLedger([a], x, s).at == map[a.id := Stamped(a, s)];
  }

  lemma SegmentText(text: string)
    ensures RawText(RecordingOf(text).t) == map["s1" := text]
  {
    assert [Segment("s1", text)][..0] == [];
  }

  lemma PassesItsCheck(e: EvidenceSpan, s: Setting)
    requires s == RecordingOf("born") && (exists id, p :: e == QuotedSpan(id, [p]))
    ensures Admissible(e, PROPOSAL, s) && Stamped(e, s).derivedFrom == e.derivedFrom
  {
    SegmentText("born");
    assert OccursAt("born", "born", 0);
    assert Distinct(e.derivedFrom);
  }

  /** The builder returns a contract for this extraction, and the checker rejects it. */
  method BuildRejected(infer: Claim -> EvidenceClass, named: CoreferenceLink -> bool) returns (y: Option<Extraction>)
    ensures y.Some? && y == Contract(PROPOSAL, RecordingOf("born"), infer, named)
    ensures !ValidContract(RecordingOf("born").t, RecordingOf("born").readable, y.value)
  {
    ProposalMeetsHypotheses();
    var issues;
    y, issues := Materialize(PROPOSAL, RecordingOf("born"), infer, named);
    EvidenceDerivations.ChainNeedsSpread();
  }
}
