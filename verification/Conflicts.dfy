/**
 * Conflict sets and the conflict ids written back onto claims (`claim_model.py`, `_filter_conflicts`,
 * `_sync_conflict_ids`, `close_extraction_conflicts`).
 */
module Conflicts {
  import opened Common
  import opened Evidence
  import opened ClaimContract

  /** `_claim_ref_index`: the last claim with an identity wins. */
  function ClaimByRef(claims: seq<Claim>): (m: map<ClaimRef, Claim>)
    ensures m.Keys == ClaimIndex(claims)
  {
    if claims == [] then
      map[]
    else
      var front, c := claims[..|claims| - 1], claims[|claims| - 1];
      assert claims == front + [c];
      assert ClaimIndex(claims) == ClaimIndex(front) + {c.ref};
      ClaimByRef(front)[c.ref := c]
  }

  /** Evidence of the claims a conflict refers to, in order of reference. */
  function CitedEvidence(refs: seq<ClaimRef>, index: map<ClaimRef, Claim>, known: set<Id>): (r: seq<Id>)
    requires ToSet(refs) <= index.Keys
    ensures ToSet(r) <= known
  {
    if refs == [] then
      []
    else
      assert refs[0] in ToSet(refs) && ToSet(refs[1..]) <= ToSet(refs);
      Filter(index[refs[0]].evidenceIds, i => i in known) + CitedEvidence(refs[1..], index, known)
  }

  /** The evidence a conflict keeps: its own known ids or, when none is known, those of its claims. */
  function ResolvedEvidence(k: ConflictSet, index: map<ClaimRef, Claim>, known: set<Id>): (r: seq<Id>)
    requires ToSet(k.refs) <= index.Keys
    ensures ToSet(r) <= known
  {
    var own := Filter(k.evidenceIds, i => i in known);
    if own != [] then own else Dedup(CitedEvidence(k.refs, index, known))
  }

  function AcceptConflict(k: ConflictSet, index: map<ClaimRef, Claim>, known: set<Id>): Result<ConflictSet, IssueCode> {
    if !(ToSet(k.refs) <= index.Keys) then Err(ConflictReferenceInvalid)
    else
      var evidence := ResolvedEvidence(k, index, known);
      if evidence == [] then Err(ObjectMissingEvidence)
      else Ok(k.(evidenceIds := evidence, verification := Unreviewed))
  }

  function AcceptedConflicts(ks: seq<ConflictSet>, index: map<ClaimRef, Claim>, known: set<Id>): seq<ConflictSet> {
    if ks == [] then
      []
    else
      AcceptedConflicts(ks[..|ks| - 1], index, known) +
      match AcceptConflict(ks[|ks| - 1], index, known)
      case Ok(k) => [k]
      case Err(_) => []
  }

  function ConflictIssues(ks: seq<ConflictSet>, index: map<ClaimRef, Claim>, known: set<Id>): seq<Issue> {
    if ks == [] then
      []
    else
      var k := ks[|ks| - 1];
      ConflictIssues(ks[..|ks| - 1], index, known) +
      match AcceptConflict(k, index, known)
      case Ok(_) => []
      case Err(code) =>
        var unknown := if code == ConflictReferenceInvalid then UnknownRefs(k.refs, index.Keys) else [];
        [Issue(Some(k.id), code, unknown)]
  }

  function UnknownRefs(refs: seq<ClaimRef>, known: set<ClaimRef>): seq<Id> {
    if refs == [] then []
    else (if refs[0] in known then [] else [refs[0].id]) + UnknownRefs(refs[1..], known)
  }

  /** The unknown claims that a rejection names are those of the conflict, in order. */
  lemma {:induction false} UnknownRefsMeaning(refs: seq<ClaimRef>, known: set<ClaimRef>)
    ensures var unknown := Filter(refs, (r: ClaimRef) => r !in known);
      && |UnknownRefs(refs, known)| == |unknown|
      && forall i :: 0 <= i < |unknown| ==> UnknownRefs(refs, known)[i] == unknown[i].id
  {
    if refs != [] {
      UnknownRefsMeaning(refs[1..], known);
    }
  }

  /** The issues are the rejections: of a conflict that names unknown claims, with these, or of one without evidence. */
  lemma {:induction false} RejectionsReported(ks: seq<ConflictSet>, index: map<ClaimRef, Claim>, known: set<Id>,
                                              i: Issue)
    ensures i in ConflictIssues(ks, index, known) <==> exists k :: k in ks && IsRejection(i, k, index, known)
  {
    if ks != [] {
      var front, k := ks[..|ks| - 1], ks[|ks| - 1];
      assert ks == front + [k];
      RejectionsReported(front, index, known, i);
      match AcceptConflict(k, index, known)
      case Ok(_) =>
        assert ConflictIssues(ks, index, known) == ConflictIssues(front, index, known);
      case Err(code) =>
        var unknown := if code == ConflictReferenceInvalid then UnknownRefs(k.refs, index.Keys) else [];
        assert ConflictIssues(ks, index, known) ==
               ConflictIssues(front, index, known) + [Issue(Some(k.id), code, unknown)];
        assert IsRejection(Issue(Some(k.id), code, unknown), k, index, known);
    }
  }

  ghost predicate IsRejection(i: Issue, k: ConflictSet, index: map<ClaimRef, Claim>, known: set<Id>) {
    match AcceptConflict(k, index, known)
    case Ok(_) => false
    case Err(code) =>
      i == Issue(Some(k.id), code, if code == ConflictReferenceInvalid then UnknownRefs(k.refs, index.Keys) else [])
  }

  /** `_filter_conflicts`. */
  method FilterConflicts(ks: seq<ConflictSet>, claims: seq<Claim>, known: set<Id>)
    returns (accepted: seq<ConflictSet>, issues: seq<Issue>)
    ensures accepted == AcceptedConflicts(ks, ClaimByRef(claims), known)
    ensures issues == ConflictIssues(ks, ClaimByRef(claims), known)
  {
    var index := ClaimByRef(claims);
    accepted, issues := [], [];
    for i := 0 to |ks|
      invariant accepted == AcceptedConflicts(ks[..i], index, known)
      invariant issues == ConflictIssues(ks[..i], index, known)
    {
      var k := ks[i];
      assert ks[..i + 1][..i] == ks[..i] && ks[..i + 1][i] == k;
      if !(ToSet(k.refs) <= index.Keys) {
        issues := issues + [Issue(Some(k.id), ConflictReferenceInvalid, UnknownRefs(k.refs, index.Keys))];
        continue;
      }
      var evidence := ResolvedEvidence(k, index, known);
      if evidence == [] {
        issues := issues + [Issue(Some(k.id), ObjectMissingEvidence, [])];
        continue;
      }
      accepted := accepted + [k.(evidenceIds := evidence, verification := Unreviewed)];
    }
    assert ks[..|ks|] == ks;
  }

  /** Every accepted conflict meets the checker's rules and comes from a conflict with the same id and claims. */
  lemma {:induction false} AcceptedAreOk(ks: seq<ConflictSet>, index: map<ClaimRef, Claim>, ev: map<Id, EvidenceSpan>)
    ensures forall a :: a in AcceptedConflicts(ks, index, ev.Keys) ==>
              ConflictOk(a, ev, index.Keys) && exists k :: k in ks && k.id == a.id && k.refs == a.refs
  {
    if ks != [] {
      var front, k := ks[..|ks| - 1], ks[|ks| - 1];
      assert ks == front + [k];
      AcceptedAreOk(front, index, ev);
    }
  }

  /** Some claim of the conflict cites the span, and the span is known. */
  ghost predicate CitedByClaim(k: ConflictSet, index: map<ClaimRef, Claim>, known: set<Id>, e: Id) {
    e in known && exists r :: r in k.refs && r in index && e in index[r].evidenceIds
  }

  /**
   * What becomes of a conflict: it needs known claims, and a known span of its own or of one of its claims. It keeps
   * its own known spans in order or, if it has none, those of its claims, each once; otherwise only its review status
   * changes.
   */
  lemma ConflictMeaning(k: ConflictSet, index: map<ClaimRef, Claim>, known: set<Id>)
    ensures var r := AcceptConflict(k, index, known);
      var refsKnown, own := forall c :: c in k.refs ==> c in index, Filter(k.evidenceIds, e => e in known);
      && (r == Err(ConflictReferenceInvalid) <==> !refsKnown)
      && (r == Err(ObjectMissingEvidence) <==> refsKnown && own == [] && forall e :: !CitedByClaim(k, index, known, e))
      && (r.Ok? <==> refsKnown && (own != [] || exists e :: CitedByClaim(k, index, known, e)))
      && (r.Ok? ==>
        && r.value == ConflictSet(k.id, k.refs, r.value.evidenceIds, Unreviewed)
        && (own != [] ==> r.value.evidenceIds == own)
        && (own == [] ==> Distinct(r.value.evidenceIds))
        && (own == [] ==> forall e :: e in r.value.evidenceIds <==> CitedByClaim(k, index, known, e)))
  {
    assert ToSet(k.refs) <= index.Keys <==> forall c :: c in k.refs ==> c in index by {
      assert forall c :: c in k.refs <==> c in ToSet(k.refs);
    }
    if ToSet(k.refs) <= index.Keys {
      var cited := CitedEvidence(k.refs, index, known);
      CitedMeaning(k.refs, index, known);
      forall e ensures e in Dedup(cited) <==> CitedByClaim(k, index, known, e) {
        assert e in Dedup(cited) <==> e in ToSet(Dedup(cited));
        assert e in cited <==> e in ToSet(cited);
      }
      if Dedup(cited) != [] {
        assert Dedup(cited)[0] in Dedup(cited);
      }
    }
  }

  lemma {:induction false} CitedMeaning(refs: seq<ClaimRef>, index: map<ClaimRef, Claim>, known: set<Id>)
    requires ToSet(refs) <= index.Keys
    ensures forall e :: e in CitedEvidence(refs, index, known) <==>
              e in known && exists r :: r in refs && r in index && e in index[r].evidenceIds
  {
    if refs != [] {
      assert refs[0] in ToSet(refs) && ToSet(refs[1..]) <= ToSet(refs);
      CitedMeaning(refs[1..], index, known);
      assert forall r :: r in refs <==> r == refs[0] || r in refs[1..];
    }
  }

  lemma FilterKeepsAll<T(!new)>(s: seq<T>, p: T -> bool)
    requires forall x :: x in s ==> p(x)
    ensures Filter(s, p) == s
  {
  }

  /**
   * Acceptance changes nothing exactly when every conflict already meets the checker's rules; in particular
   * closing a second time is the identity.
   */
  lemma {:induction false} ClosedIsFixed(ks: seq<ConflictSet>, index: map<ClaimRef, Claim>, ev: map<Id, EvidenceSpan>)
    ensures AcceptedConflicts(ks, index, ev.Keys) == ks <==> forall k :: k in ks ==> ConflictOk(k, ev, index.Keys)
  {
    AcceptedAreOk(ks, index, ev);
    if forall k :: k in ks ==> ConflictOk(k, ev, index.Keys) {
      OkIsAccepted(ks, index, ev);
    }
  }

  lemma {:induction false} OkIsAccepted(ks: seq<ConflictSet>, index: map<ClaimRef, Claim>, ev: map<Id, EvidenceSpan>)
    requires forall k :: k in ks ==> ConflictOk(k, ev, index.Keys)
    ensures AcceptedConflicts(ks, index, ev.Keys) == ks
  {
    if ks != [] {
      var front, k := ks[..|ks| - 1], ks[|ks| - 1];
      assert ks == front + [k];
      OkIsAccepted(front, index, ev);
      assert ConflictOk(k, ev, index.Keys);
      assert forall i :: i in k.evidenceIds ==> i in ToSet(k.evidenceIds);
      FilterKeepsAll(k.evidenceIds, i => i in ev.Keys);
    }
  }

  /** Ids of the conflicts that list `ref`, in order. */
  function ConflictIdsOf(ref: ClaimRef, ks: seq<ConflictSet>): seq<Id> {
    if ks == [] then []
    else ConflictIdsOf(ref, ks[..|ks| - 1]) + if ref in ks[|ks| - 1].refs then [ks[|ks| - 1].id] else []
  }

  /** A claim carries exactly the ids of the conflicts that cite it. */
  lemma {:induction false} ConflictIdsExact(ref: ClaimRef, ks: seq<ConflictSet>)
    ensures forall i :: i in ConflictIdsOf(ref, ks) <==> exists k :: k in ks && k.id == i && ref in k.refs
  {
    if ks != [] {
      var front, k := ks[..|ks| - 1], ks[|ks| - 1];
      assert ks == front + [k];
      ConflictIdsExact(ref, front);
    }
  }

  /** The claims with the ids of the conflicts that list them. */
  function Synced(claims: seq<Claim>, ks: seq<ConflictSet>): (r: seq<Claim>)
    ensures |r| == |claims|
    ensures forall i :: 0 <= i < |claims| ==> r[i] == claims[i].(conflictIds := ConflictIdsOf(claims[i].ref, ks))
  {
    seq(|claims|, i requires 0 <= i < |claims| => claims[i].(conflictIds := ConflictIdsOf(claims[i].ref, ks)))
  }

  function GetOr<K, V>(m: map<K, V>, k: K, default: V): V {
    if k in m then m[k] else default
  }

  /** `_sync_conflict_ids`: build the reverse index and attach it. */
  method SyncConflictIds(claims: seq<Claim>, ks: seq<ConflictSet>) returns (synced: seq<Claim>)
    requires forall k :: k in ks ==> Distinct(k.refs)
    ensures synced == Synced(claims, ks)
  {
    var byClaim: map<ClaimRef, seq<Id>> := map[];
    for i := 0 to |ks|
      invariant forall r :: GetOr(byClaim, r, []) == ConflictIdsOf(r, ks[..i])
    {
      var k := ks[i];
      assert ks[..i + 1][..i] == ks[..i] && ks[..i + 1][i] == k;
      for j := 0 to |k.refs|
        invariant forall r :: GetOr(byClaim, r, []) ==
                              ConflictIdsOf(r, ks[..i]) + if r in k.refs[..j] then [k.id] else []
      {
        var r := k.refs[j];
        assert r !in k.refs[..j];
        assert k.refs[..j + 1] == k.refs[..j] + [r];
        byClaim := byClaim[r := GetOr(byClaim, r, []) + [k.id]];
      }
      assert k.refs[..|k.refs|] == k.refs;
    }
    assert ks[..|ks|] == ks;
    synced := seq(|claims|, i requires 0 <= i < |claims| =>
                    claims[i].(conflictIds := GetOr(byClaim, claims[i].ref, [])));
  }

  /** `close_extraction_conflicts`: afterwards conflicts and claims agree in both directions. */
  method CloseConflicts(x: Extraction) returns (y: Extraction, issues: seq<Issue>)
    requires WellFormed(x)
    ensures y == x.(claims := y.claims, conflicts := y.conflicts)
    ensures ConflictsClosed(y) && |y.claims| == |x.claims|
    ensures y.claims == Synced(x.claims, y.conflicts)
    ensures y.conflicts == AcceptedConflicts(x.conflicts, ClaimByRef(x.claims), SpansById(x.spans).at.Keys)
    ensures issues == ConflictIssues(x.conflicts, ClaimByRef(x.claims), SpansById(x.spans).at.Keys)
  {
    var ev := SpansById(x.spans).at;
    var accepted;
    accepted, issues := FilterConflicts(x.conflicts, x.claims, ev.Keys);
    AcceptedAreOk(x.conflicts, ClaimByRef(x.claims), ev);
    AcceptedKeepRefs(x.conflicts, ClaimByRef(x.claims), ev.Keys);
    var synced := SyncConflictIds(x.claims, accepted);
    y := x.(claims := synced, conflicts := accepted);
    SyncedIsClosed(x, y);
  }

  /** Conflicts cite known claims and evidence; a claim carries exactly the ids of the conflicts citing it. */
  ghost predicate ConflictsClosed(y: Extraction) {
    && (forall k :: k in y.conflicts ==> ConflictOk(k, SpansById(y.spans).at, ClaimIndex(y.claims)))
    && (forall c :: c in y.claims ==>
          forall i :: i in c.conflictIds <==> exists k :: k in y.conflicts && k.id == i && c.ref in k.refs)
  }

  lemma SyncedIsClosed(x: Extraction, y: Extraction)
    requires |y.claims| == |x.claims| && y.spans == x.spans
    requires forall i :: 0 <= i < |x.claims| ==>
               y.claims[i] == x.claims[i].(conflictIds := ConflictIdsOf(x.claims[i].ref, y.conflicts))
    requires forall k :: k in y.conflicts ==> ConflictOk(k, SpansById(x.spans).at, ClaimIndex(x.claims))
    ensures ConflictsClosed(y)
  {
    SameIndex(x.claims, y.claims);
    forall c | c in y.claims
      ensures forall i :: i in c.conflictIds <==> exists k :: k in y.conflicts && k.id == i && c.ref in k.refs
    {
      ConflictIdsExact(c.ref, y.conflicts);
    }
  }

  lemma SameIndex(a: seq<Claim>, b: seq<Claim>)
    requires |a| == |b| && forall i :: 0 <= i < |a| ==> a[i].ref == b[i].ref
    ensures ClaimIndex(a) == ClaimIndex(b) && MentionIds(a) == MentionIds(b)
  {
    forall r ensures r in ClaimIndex(a) <==> r in ClaimIndex(b) {
      if r in ClaimIndex(a) {
        var i :| 0 <= i < |a| && a[i].ref == r;
        assert b[i].ref == r;
      }
      if r in ClaimIndex(b) {
        var i :| 0 <= i < |b| && b[i].ref == r;
        assert a[i].ref == r;
      }
    }
    MentionsAreIndexed(a);
    MentionsAreIndexed(b);
  }

  lemma MentionsAreIndexed(a: seq<Claim>)
    ensures MentionIds(a) == set r | r in ClaimIndex(a) && r.kind == PersonMention :: r.id
  {
    forall c | c in a ensures c.ref in ClaimIndex(a) {
    }
  }

  /** Acceptance changes neither the claims nor the id of a conflict. */
  lemma {:induction false} AcceptedKeepRefs(ks: seq<ConflictSet>, index: map<ClaimRef, Claim>, known: set<Id>)
    requires forall k :: k in ks ==> Distinct(k.refs)
    ensures forall a :: a in AcceptedConflicts(ks, index, known) ==> Distinct(a.refs)
  {
    if ks != [] {
      AcceptedKeepRefs(ks[..|ks| - 1], index, known);
    }
  }

  /** The conflict as it is accepted. */
  ghost predicate AcceptedAs(a: ConflictSet, k: ConflictSet) {
    a == k.(evidenceIds := a.evidenceIds, verification := Unreviewed)
  }

  ghost predicate Names(issue: Issue, id: Id) {
    issue.objectId == Some(id)
  }

  /** No conflict disappears silently: each is accepted, or an issue names it. */
  lemma {:induction false} EveryRejectionReported(ks: seq<ConflictSet>, index: map<ClaimRef, Claim>, known: set<Id>,
                                                  k: ConflictSet)
    requires k in ks
    ensures (exists a :: a in AcceptedConflicts(ks, index, known) && AcceptedAs(a, k)) ||
            (exists i :: i in ConflictIssues(ks, index, known) && Names(i, k.id))
  {
    var front, last := ks[..|ks| - 1], ks[|ks| - 1];
    assert ks == front + [last];
    if k in front {
      EveryRejectionReported(front, index, known, k);
      if a :| a in AcceptedConflicts(front, index, known) && AcceptedAs(a, k) {
        assert a in AcceptedConflicts(ks, index, known);
      } else {
        var i :| i in ConflictIssues(front, index, known) && Names(i, k.id);
        assert i in ConflictIssues(ks, index, known);
      }
    } else {
      match AcceptConflict(k, index, known) {
        case Ok(a) =>
          assert AcceptedAs(a, k) && a in AcceptedConflicts(ks, index, known);
        case Err(_) =>
          var issues := ConflictIssues(ks, index, known);
          assert Names(issues[|issues| - 1], k.id);
      }
    }
  }
}
