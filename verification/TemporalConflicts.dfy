/**
 * Conflicts between dates of the same birth or death (`claim_semantics.py`, `add_temporal_conflicts`). A sorted tuple
 * of participant ids is a multiset of them, and so is the sorted list of event ids that names a conflict.
 */
module TemporalConflicts {
  import opened Common
  import opened ClaimContract
  import opened TemporalExpressions

  /** `kind` is the case-folded event type. */
  datatype DatedEvent = DatedEvent(id: Id, kind: string, date: Option<EventDate>, participants: seq<Id>,
                                   evidenceIds: seq<Id>)

  datatype Key = Key(kind: string, participants: multiset<Id>)

  datatype Signature = Signature(kind: Kind, value: Option<string>, lower: Option<string>, upper: Option<string>)

  /** Dated events of which a person has only one. */
  predicate Counts(e: DatedEvent) {
    e.date.Some? && (e.kind == "birth" || e.kind == "death")
  }

  function KeyOf(e: DatedEvent): Key {
    Key(e.kind, multiset(e.participants))
  }

  function SignatureOf(e: DatedEvent): Signature
    requires e.date.Some?
  {
    Signature(e.date.value.kind, e.date.value.value, e.date.value.lower, e.date.value.upper)
  }

  // ---- what the grouping means ----

  /** Both events are dated, both are births or both deaths, and of the same people. */
  predicate SameLifeEvent(a: DatedEvent, b: DatedEvent) {
    && a.date.Some? && b.date.Some?
    && a.kind == b.kind && (a.kind == "birth" || a.kind == "death")
    && multiset(a.participants) == multiset(b.participants)
  }

  predicate DatesDiffer(a: DatedEvent, b: DatedEvent)
    requires a.date.Some? && b.date.Some?
  {
    var d, e := a.date.value, b.date.value;
    d.kind != e.kind || d.value != e.value || d.lower != e.lower || d.upper != e.upper
  }

  /** All events that are about the same birth or death as `a`, in order. */
  function Alike(events: seq<DatedEvent>, a: DatedEvent): (group: seq<DatedEvent>)
    ensures forall e :: e in group <==> e in events && SameLifeEvent(a, e)
  {
    assert forall e :: SameAs(a)(e) <==> SameLifeEvent(a, e);
    Filter(events, SameAs(a))
  }

  function SameAs(a: DatedEvent): DatedEvent -> bool {
    e => SameLifeEvent(a, e)
  }

  lemma KeyMeaning(a: DatedEvent, b: DatedEvent)
    ensures Counts(a) && Counts(b) && KeyOf(a) == KeyOf(b) <==> SameLifeEvent(a, b)
    ensures SameLifeEvent(a, b) ==> (SignatureOf(a) != SignatureOf(b) <==> DatesDiffer(a, b))
  {
  }

  // ---- groups ----

  type Groups = Table<Key, seq<DatedEvent>>

  /** `grouped.setdefault(key, []).append(event)` over all events. */
  function Grouped(events: seq<DatedEvent>): (g: Groups)
    ensures g.Valid()
  {
    if events == [] then Dict([], map[])
    else
      var g, e := Grouped(events[..|events| - 1]), events[|events| - 1];
      if !Counts(e) then g
      else g.Put(KeyOf(e), (if KeyOf(e) in g.at then g.at[KeyOf(e)] else []) + [e])
  }

  /** The events of one key, in order. */
  function Members(events: seq<DatedEvent>, key: Key): (m: seq<DatedEvent>)
    ensures forall e :: e in m <==> e in events && Counts(e) && KeyOf(e) == key
  {
    if events == [] then []
    else
      var e := events[|events| - 1];
      Members(events[..|events| - 1], key) + if Counts(e) && KeyOf(e) == key then [e] else []
  }

  /** The events of one key are the events about the same birth or death. */
  lemma {:induction false} MembersAreAlike(events: seq<DatedEvent>, a: DatedEvent)
    requires Counts(a)
    ensures Members(events, KeyOf(a)) == Alike(events, a)
  {
    if events != [] {
      var front, e := events[..|events| - 1], events[|events| - 1];
      MembersAreAlike(front, a);
      FilterAppend(front, e, SameAs(a));
      assert SameAs(a)(e) <==> SameLifeEvent(a, e);
      assert events == front + [e];
      KeyMeaning(a, e);
    }
  }

  lemma {:induction false} GroupsAreMembers(events: seq<DatedEvent>, key: Key)
    ensures key in Grouped(events).at <==> Members(events, key) != []
    ensures key in Grouped(events).at ==> Grouped(events).at[key] == Members(events, key)
  {
    if events != [] {
      GroupsAreMembers(events[..|events| - 1], key);
    }
  }

  function Ids(group: seq<DatedEvent>): (ids: multiset<Id>) {
    multiset(IdList(group))
  }

  function IdList(group: seq<DatedEvent>): (r: seq<Id>)
    ensures |r| == |group| && forall i :: 0 <= i < |group| ==> r[i] == group[i].id
  {
    seq(|group|, i requires 0 <= i < |group| => group[i].id)
  }

  function Evidences(group: seq<DatedEvent>): seq<Id> {
    if group == [] then [] else Evidences(group[..|group| - 1]) + group[|group| - 1].evidenceIds
  }

  function Refs(group: seq<DatedEvent>): (r: seq<ClaimRef>)
    ensures |r| == |group| && forall i :: 0 <= i < |group| ==> r[i] == ClaimRef(Event, group[i].id)
  {
    seq(|group|, i requires 0 <= i < |group| => ClaimRef(Event, group[i].id))
  }

  function Signatures(group: seq<DatedEvent>): set<Signature>
    requires forall e :: e in group ==> e.date.Some?
  {
    set e | e in group :: SignatureOf(e)
  }

  /** Two events of the group disagree. */
  predicate Disagree(group: seq<DatedEvent>)
    requires forall e :: e in group ==> e.date.Some?
  {
    |group| >= 2 && |Signatures(group)| > 1
  }

  type Digest = multiset<Id> -> Id

  function ConflictOf(digest: Digest, group: seq<DatedEvent>): ConflictSet {
    ConflictSet(digest(Ids(group)), Refs(group), Dedup(Evidences(group)), Unreviewed)
  }

  ghost predicate AllDated(groups: seq<seq<DatedEvent>>) {
    forall g, e :: g in groups && e in g ==> e.date.Some?
  }

  /** A group gets a conflict when its dates disagree and no earlier conflict has its name. */
  predicate Reported(digest: Digest, group: seq<DatedEvent>, existing: set<Id>)
    requires forall e :: e in group ==> e.date.Some?
  {
    Disagree(group) && digest(Ids(group)) !in existing
  }

  function NewConflicts(digest: Digest, groups: seq<seq<DatedEvent>>, existing: set<Id>): seq<ConflictSet>
    requires AllDated(groups)
  {
    if groups == [] then []
    else
      var g := groups[|groups| - 1];
      NewConflicts(digest, groups[..|groups| - 1], existing) +
      if Reported(digest, g, existing) then [ConflictOf(digest, g)] else []
  }

  /** The event ids the issues name. */
  function NewIssues(digest: Digest, groups: seq<seq<DatedEvent>>, existing: set<Id>): seq<Id>
    requires AllDated(groups)
  {
    if groups == [] then []
    else
      var g := groups[|groups| - 1];
      NewIssues(digest, groups[..|groups| - 1], existing) +
      if Reported(digest, g, existing) then IdList(g) else []
  }

  function ConflictIds(cs: seq<ConflictSet>): set<Id> {
    set c | c in cs :: c.id
  }

  lemma GroupsAreDated(events: seq<DatedEvent>)
    ensures AllDated(Grouped(events).Values())
  {
    var d := Grouped(events);
    forall g, e | g in d.Values() && e in g ensures e.date.Some? {
      var i :| 0 <= i < |d.keys| && d.Values()[i] == g;
      GroupsAreMembers(events, d.KeyAt(i));
    }
  }

  /** The references of a conflict must be non-empty and unique, or its constructor raises. */
  predicate Citable(group: seq<DatedEvent>) {
    Distinct(IdList(group)) && "" !in IdList(group)
  }

  ghost predicate AllCitable(digest: Digest, groups: seq<seq<DatedEvent>>, existing: set<Id>)
    requires AllDated(groups)
  {
    forall g :: g in groups && Reported(digest, g, existing) ==> Citable(g)
  }

  /** A conflict is due for a group with a repeated or an empty event id. */
  ghost predicate Raises(digest: Digest, events: seq<DatedEvent>, before: seq<ConflictSet>) {
    GroupsAreDated(events);
    !AllCitable(digest, Grouped(events).Values(), ConflictIds(before))
  }

  /** What `add_temporal_conflicts` returns. */
  ghost predicate Added(digest: Digest, events: seq<DatedEvent>, before: seq<ConflictSet>, after: seq<ConflictSet>,
                        issues: seq<Id>)
  {
    GroupsAreDated(events);
    var groups := Grouped(events).Values();
    && !Raises(digest, events, before)
    && after == before + NewConflicts(digest, groups, ConflictIds(before))
    && issues == NewIssues(digest, groups, ConflictIds(before))
  }

  method GroupEvents(events: seq<DatedEvent>) returns (grouped: Groups)
    ensures grouped == Grouped(events)
  {
    grouped := Dict([], map[]);
    for i := 0 to |events|
      invariant grouped == Grouped(events[..i])
    {
      var e := events[i];
      assert events[..i + 1][..i] == events[..i];
      if !Counts(e) {
        continue;
      }
      var key := KeyOf(e);
      grouped := grouped.Put(key, (if key in grouped.at then grouped.at[key] else []) + [e]);
    }
    assert events[..|events|] == events;
  }

  /** `add_temporal_conflicts`; `None` when it raises. */
  method AddTemporalConflicts(digest: Digest, events: seq<DatedEvent>, before: seq<ConflictSet>)
    returns (r: Option<(seq<ConflictSet>, seq<Id>)>)
    ensures r.None? <==> Raises(digest, events, before)
    ensures r.Some? ==> Added(digest, events, before, r.value.0, r.value.1)
  {
    var grouped := GroupEvents(events);
    GroupsAreDated(events);
    var groups := grouped.Values();
    var existing := ConflictIds(before);
    var after, issues := before, [];
    for i := 0 to |groups|
      invariant AddedSoFar(digest, groups[..i], before, after, issues)
    {
      var g := groups[i];
      OneMoreGroup(digest, groups, before, after, issues, i);
      if !Disagree(g) || digest(Ids(g)) in existing {
        continue;
      }
      if !Citable(g) {
        return None;
      }
      after := after + [ConflictOf(digest, g)];
      issues := issues + IdList(g);
    }
    assert groups[..|groups|] == groups;
    return Some((after, issues));
  }

  /** What the loop has collected from the first groups. */
  ghost predicate AddedSoFar(digest: Digest, groups: seq<seq<DatedEvent>>, before: seq<ConflictSet>,
                             after: seq<ConflictSet>, issues: seq<Id>)
  {
    && AllDated(groups) && AllCitable(digest, groups, ConflictIds(before))
    && after == before + NewConflicts(digest, groups, ConflictIds(before))
    && issues == NewIssues(digest, groups, ConflictIds(before))
  }

  lemma OneMoreGroup(digest: Digest, groups: seq<seq<DatedEvent>>, before: seq<ConflictSet>, after: seq<ConflictSet>,
                     issues: seq<Id>, i: nat)
    requires i < |groups| && AllDated(groups) && AddedSoFar(digest, groups[..i], before, after, issues)
    ensures groups[i] in groups
    ensures var g := groups[i];
      if Reported(digest, g, ConflictIds(before)) then
        Citable(g) ==>
          AddedSoFar(digest, groups[..i + 1], before, after + [ConflictOf(digest, g)], issues + IdList(g))
      else AddedSoFar(digest, groups[..i + 1], before, after, issues)
  {
    var more := groups[..i + 1];
    assert more[..i] == groups[..i] && more[i] == groups[i];
    assert forall g :: g in more <==> g in groups[..i] || g == groups[i];
  }

  // ---- what the conflicts are ----

  lemma SeveralSignatures(group: seq<DatedEvent>)
    requires forall e :: e in group ==> e.date.Some?
    ensures Disagree(group) <==> exists a, b :: a in group && b in group && SignatureOf(a) != SignatureOf(b)
  {
    var sigs := Signatures(group);
    if exists a, b :: a in group && b in group && SignatureOf(a) != SignatureOf(b) {
      var a, b :| a in group && b in group && SignatureOf(a) != SignatureOf(b);
      assert SignatureOf(a) in sigs && SignatureOf(b) in sigs;
      assert {SignatureOf(a), SignatureOf(b)} <= sigs;
      SubsetSize({SignatureOf(a), SignatureOf(b)}, sigs);
      assert a != b;
    }
    if Disagree(group) {
      var s :| s in sigs;
      assert sigs != {s};
      var t :| t in sigs && t != s;
      var a :| a in group && SignatureOf(a) == s;
      var b :| b in group && SignatureOf(b) == t;
    }
  }

  lemma {:induction false} SubsetSize<T>(a: set<T>, b: set<T>)
    requires a <= b
    ensures |a| <= |b|
  {
    if a != {} {
      var x :| x in a;
      SubsetSize(a - {x}, b - {x});
    }
  }

  lemma {:induction false} NewConflictsExactly(digest: Digest, groups: seq<seq<DatedEvent>>, existing: set<Id>,
                                               c: ConflictSet)
    requires AllDated(groups)
    ensures c in NewConflicts(digest, groups, existing)
       <==> exists g :: g in groups && Reported(digest, g, existing) && c == ConflictOf(digest, g)
  {
    if groups != [] {
      var front, last := groups[..|groups| - 1], groups[|groups| - 1];
      NewConflictsExactly(digest, front, existing, c);
      assert groups == front + [last];
    }
  }

  lemma GroupOfKey(events: seq<DatedEvent>, key: Key)
    requires Members(events, key) != []
    ensures Members(events, key) in Grouped(events).Values()
  {
    var d := Grouped(events);
    GroupsAreMembers(events, key);
    assert key in ToSet(d.keys);
    var i :| 0 <= i < |d.keys| && d.keys[i] == key;
    assert d.Values()[i] == Members(events, key);
  }

  /** The conflict carries the digest of the very events it cites. */
  ghost predicate ProperlyNamed(digest: Digest, c: ConflictSet) {
    exists group :: c.id == digest(Ids(group)) && c.refs == Refs(group)
  }

  /** Every conflict that a run adds is properly named. */
  lemma AddedAreProperlyNamed(digest: Digest, events: seq<DatedEvent>, before: seq<ConflictSet>,
                              after: seq<ConflictSet>, issues: seq<Id>)
    requires Added(digest, events, before, after, issues)
    requires forall c :: c in before ==> ProperlyNamed(digest, c)
    ensures forall c :: c in after ==> ProperlyNamed(digest, c)
  {
    GroupsAreDated(events);
    forall c | c in after ensures ProperlyNamed(digest, c) {
      NewConflictsExactly(digest, Grouped(events).Values(), ConflictIds(before), c);
    }
  }

  ghost predicate Cites(c: ConflictSet, e: DatedEvent) {
    ClaimRef(Event, e.id) in c.refs
  }

  lemma CitesMembers(digest: Digest, group: seq<DatedEvent>, c: ConflictSet, e: DatedEvent)
    requires Injective(digest) && ProperlyNamed(digest, c) && c.id == digest(Ids(group)) && e in group
    ensures Cites(c, e)
  {
    var named: seq<DatedEvent> :| c.id == digest(Ids(named)) && c.refs == Refs(named);
    IdsMembers(group, e.id);
    IdsMembers(named, e.id);
    var f :| f in named && f.id == e.id;
    var i :| 0 <= i < |named| && named[i] == f;
    assert Refs(named)[i] == ClaimRef(Event, e.id);
  }

  /**
   * Two dated births (or deaths) of the same participants whose dates differ always leave a conflict behind, named
   * after all such events. It cites both if the older conflicts are properly named.
   */
  lemma EveryDisagreementIsKept(digest: Digest, events: seq<DatedEvent>, before: seq<ConflictSet>,
                                after: seq<ConflictSet>, issues: seq<Id>, a: DatedEvent, b: DatedEvent)
    requires Added(digest, events, before, after, issues)
    requires a in events && b in events && SameLifeEvent(a, b) && DatesDiffer(a, b)
    ensures digest(multiset(IdList(Alike(events, a)))) in ConflictIds(after)
    ensures Injective(digest) && (forall c :: c in before ==> ProperlyNamed(digest, c)) ==>
              exists c :: c in after && Cites(c, a) && Cites(c, b)
  {
    var group, groups := Members(events, KeyOf(a)), Grouped(events).Values();
    KeyMeaning(a, b);
    MembersAreAlike(events, a);
    assert a in group && b in group;
    GroupOfKey(events, KeyOf(a));
    GroupsAreDated(events);
    SeveralSignatures(group);
    NewConflictsExactly(digest, groups, ConflictIds(before), ConflictOf(digest, group));
    if digest(Ids(group)) !in ConflictIds(before) {
      assert ConflictOf(digest, group) in after;
    }
    var c :| c in after && c.id == digest(Ids(group));
    if Injective(digest) && forall c :: c in before ==> ProperlyNamed(digest, c) {
      AddedAreProperlyNamed(digest, events, before, after, issues);
      CitesMembers(digest, group, c, a);
      CitesMembers(digest, group, c, b);
    }
  }

  /** A built conflict cites exactly the ids of its group. */
  lemma BuiltCites(digest: Digest, group: seq<DatedEvent>, e: DatedEvent)
    ensures Cites(ConflictOf(digest, group), e) <==> exists f :: f in group && f.id == e.id
  {
    var refs := Refs(group);
    if f :| f in group && f.id == e.id {
      var i :| 0 <= i < |group| && group[i] == f;
      assert refs[i] == ClaimRef(Event, e.id);
    }
  }

  /**
   * Exactly when a disagreement of two births (or deaths) is cited afterwards: the name of their group was free, or an
   * older conflict cites both. Neither the digest nor the older conflicts need to be well behaved.
   */
  lemma DisagreementCitedExactly(digest: Digest, events: seq<DatedEvent>, before: seq<ConflictSet>,
                                 after: seq<ConflictSet>, issues: seq<Id>, a: DatedEvent, b: DatedEvent)
    requires Added(digest, events, before, after, issues) && UniqueEvents(events)
    requires a in events && b in events && SameLifeEvent(a, b) && DatesDiffer(a, b)
    ensures (exists c :: c in after && Cites(c, a) && Cites(c, b)) <==>
            || digest(multiset(IdList(Alike(events, a)))) !in ConflictIds(before)
            || exists c :: c in before && Cites(c, a) && Cites(c, b)
  {
    var group, groups := Members(events, KeyOf(a)), Grouped(events).Values();
    KeyMeaning(a, b);
    MembersAreAlike(events, a);
    GroupsAreDated(events);
    if digest(Ids(group)) !in ConflictIds(before) {
      NewNameCites(digest, events, before, after, issues, a, b);
    } else if c :| c in after && Cites(c, a) && Cites(c, b) {
      if c !in before {
        var g := GroupOfConflict(digest, events, before, after, issues, c);
        BuiltCites(digest, g, a);
      }
    }
  }

  lemma NewNameCites(digest: Digest, events: seq<DatedEvent>, before: seq<ConflictSet>, after: seq<ConflictSet>,
                     issues: seq<Id>, a: DatedEvent, b: DatedEvent)
    requires Added(digest, events, before, after, issues)
    requires a in events && b in events && SameLifeEvent(a, b) && DatesDiffer(a, b)
    requires digest(multiset(IdList(Alike(events, a)))) !in ConflictIds(before)
    ensures exists c :: c in after && Cites(c, a) && Cites(c, b)
  {
    var group := Members(events, KeyOf(a));
    KeyMeaning(a, b);
    MembersAreAlike(events, a);
    assert a in group && b in group;
    GroupOfKey(events, KeyOf(a));
    GroupsAreDated(events);
    SeveralSignatures(group);
    NewConflictsExactly(digest, Grouped(events).Values(), ConflictIds(before), ConflictOf(digest, group));
    BuiltCites(digest, group, a);
    BuiltCites(digest, group, b);
    assert ConflictOf(digest, group) in after;
  }

  /** The reported group for which a new conflict was built; all of its events have one key. */
  lemma GroupOfConflict(digest: Digest, events: seq<DatedEvent>, before: seq<ConflictSet>, after: seq<ConflictSet>,
                        issues: seq<Id>, c: ConflictSet) returns (g: seq<DatedEvent>)
    requires Added(digest, events, before, after, issues) && c in after && c !in before
    ensures c == ConflictOf(digest, g) && digest(Ids(g)) !in ConflictIds(before)
    ensures forall e :: e in g ==> e in events && g == Members(events, KeyOf(e))
  {
    var d := Grouped(events);
    GroupsAreDated(events);
    NewConflictsExactly(digest, d.Values(), ConflictIds(before), c);
    g :| g in d.Values() && Reported(digest, g, ConflictIds(before)) && c == ConflictOf(digest, g);
    var key := KeyOfGroup(events, g);
  }

  /** An older conflict that has the name of the group and does not cite both hides the disagreement, in any list. */
  lemma ForeignConflictHides(digest: Digest, events: seq<DatedEvent>, before: seq<ConflictSet>, after: seq<ConflictSet>,
                             issues: seq<Id>, a: DatedEvent, b: DatedEvent)
    requires Added(digest, events, before, after, issues) && UniqueEvents(events)
    requires a in events && b in events && SameLifeEvent(a, b) && DatesDiffer(a, b)
    requires digest(multiset(IdList(Alike(events, a)))) in ConflictIds(before)
    requires forall c :: c in before ==> !(Cites(c, a) && Cites(c, b))
    ensures forall c :: c in after ==> !(Cites(c, a) && Cites(c, b))
  {
    DisagreementCitedExactly(digest, events, before, after, issues, a, b);
  }

  /** Such a run: two events and one older conflict with their name. Nothing is added and nothing said. */
  lemma ForeignConflictRun(digest: Digest, a: DatedEvent, b: DatedEvent, foreign: ConflictSet)
    requires SameLifeEvent(a, b) && DatesDiffer(a, b)
    requires foreign.id == digest(Ids([a, b]))
    ensures Added(digest, [a, b], [foreign], [foreign], [])
  {
    var groups := Grouped([a, b]).Values();
    GroupsAreDated([a, b]);
    KeyMeaning(a, b);
    assert foreign in [foreign] && foreign.id in ConflictIds([foreign]);
    forall g | g in groups && Disagree(g) ensures digest(Ids(g)) in ConflictIds([foreign]) {
      OnlyGroup(a, b, g);
    }
    NothingLeft(digest, groups, ConflictIds([foreign]));
  }

  lemma OnlyGroup(a: DatedEvent, b: DatedEvent, g: seq<DatedEvent>)
    requires Counts(a) && Counts(b) && KeyOf(a) == KeyOf(b) && g in Grouped([a, b]).Values()
    ensures g == [a, b]
  {
    var key := KeyOfGroup([a, b], g);
    TwoMembers(a, b, key);
    var d := Grouped([a, b]);
    var i :| 0 <= i < |d.keys| && d.Values()[i] == g;
    GroupsAreMembers([a, b], d.KeyAt(i));
    TwoMembers(a, b, d.KeyAt(i));
  }

  lemma TwoMembers(a: DatedEvent, b: DatedEvent, key: Key)
    requires Counts(a) && Counts(b) && KeyOf(a) == KeyOf(b)
    ensures Members([a, b], key) == if KeyOf(a) == key then [a, b] else []
  {
    assert [a, b][..1] == [a] && [a][..0] == [];
    assert Members([], key) == [] && Members([a], key) == if KeyOf(a) == key then [a] else [];
  }

  /**
   * Every new conflict is about one birth or death that is dated twice: it cites exactly the events about it, in order
   * and two of them with different dates, has their evidence without repetition, and is named after their ids.
   */
  lemma EveryNewConflictIsReal(digest: Digest, events: seq<DatedEvent>, before: seq<ConflictSet>,
                               after: seq<ConflictSet>, issues: seq<Id>, c: ConflictSet)
    returns (a: DatedEvent, b: DatedEvent)
    requires Added(digest, events, before, after, issues) && c in after && c !in before
    ensures a in events && b in events && SameLifeEvent(a, b) && DatesDiffer(a, b)
    ensures var group := Alike(events, a);
      && |c.refs| == |group| && (forall i :: 0 <= i < |group| ==> c.refs[i] == ClaimRef(Event, group[i].id))
      && Distinct(c.evidenceIds)
      && (forall v :: v in c.evidenceIds <==> exists e :: e in group && v in e.evidenceIds)
      && c.verification == Unreviewed
      && c.id == digest(multiset(IdList(group)))
    ensures forall d :: d in before ==> d.id != c.id
  {
    GroupsAreDated(events);
    NewConflictsExactly(digest, Grouped(events).Values(), ConflictIds(before), c);
    var g :| g in Grouped(events).Values() && Reported(digest, g, ConflictIds(before)) && c == ConflictOf(digest, g);
    a, b := DisagreeingPair(events, g);
    BuiltEvidence(digest, g);
    forall d | d in before ensures d.id != c.id {
      assert d.id in ConflictIds(before);
    }
  }

  lemma BuiltEvidence(digest: Digest, group: seq<DatedEvent>)
    ensures var ids := ConflictOf(digest, group).evidenceIds;
      Distinct(ids) && forall v :: v in ids <==> exists e :: e in group && v in e.evidenceIds
  {
    var ids := Dedup(Evidences(group));
    forall v ensures v in ids <==> exists e :: e in group && v in e.evidenceIds {
      assert v in ids <==> v in ToSet(ids);
      assert v in Evidences(group) <==> v in ToSet(Evidences(group));
      EvidencesMembers(group, v);
    }
  }

  lemma {:induction false} EvidencesMembers(group: seq<DatedEvent>, v: Id)
    ensures v in Evidences(group) <==> exists e :: e in group && v in e.evidenceIds
  {
    if group != [] {
      var front, last := group[..|group| - 1], group[|group| - 1];
      EvidencesMembers(front, v);
      assert group == front + [last];
    }
  }

  /**
   * A new conflict never joins different matters: with unique event ids, the events it cites are all dated, all births
   * or all deaths, and of the same people, and it cites every such event.
   */
  lemma NewConflictsCiteOneMatter(digest: Digest, events: seq<DatedEvent>, before: seq<ConflictSet>,
                                  after: seq<ConflictSet>, issues: seq<Id>, c: ConflictSet, a: DatedEvent,
                                  b: DatedEvent)
    requires Added(digest, events, before, after, issues) && UniqueEvents(events)
    requires c in after && c !in before && a in events && b in events && ClaimRef(Event, a.id) in c.refs
    ensures ClaimRef(Event, b.id) in c.refs <==>
            && a.date.Some? && b.date.Some?
            && a.kind == b.kind && (a.kind == "birth" || a.kind == "death")
            && multiset(a.participants) == multiset(b.participants)
  {
    var g := GroupOfConflict(digest, events, before, after, issues, c);
    BuiltCites(digest, g, a);
    BuiltCites(digest, g, b);
    MembersAreAlike(events, a);
    KeyMeaning(a, b);
  }

  /** The event ids that a list of conflicts cites, one after the other. */
  function CitedIds(cs: seq<ConflictSet>): seq<Id> {
    if cs == [] then []
    else
      var refs := cs[|cs| - 1].refs;
      CitedIds(cs[..|cs| - 1]) + seq(|refs|, i requires 0 <= i < |refs| => refs[i].id)
  }

  /** The issues name exactly the events that the new conflicts cite, in order. */
  lemma IssuesNameCitedEvents(digest: Digest, events: seq<DatedEvent>, before: seq<ConflictSet>,
                              after: seq<ConflictSet>, issues: seq<Id>)
    requires Added(digest, events, before, after, issues)
    ensures before <= after && issues == CitedIds(after[|before|..])
  {
    GroupsAreDated(events);
    IssuesFollowConflicts(digest, Grouped(events).Values(), ConflictIds(before));
    assert after[|before|..] == NewConflicts(digest, Grouped(events).Values(), ConflictIds(before));
  }

  lemma {:induction false} IssuesFollowConflicts(digest: Digest, groups: seq<seq<DatedEvent>>, existing: set<Id>)
    requires AllDated(groups)
    ensures NewIssues(digest, groups, existing) == CitedIds(NewConflicts(digest, groups, existing))
  {
    if groups != [] {
      var front, g := groups[..|groups| - 1], groups[|groups| - 1];
      IssuesFollowConflicts(digest, front, existing);
      OneMoreCited(NewConflicts(digest, front, existing), digest, g);
    }
  }

  lemma OneMoreCited(earlier: seq<ConflictSet>, digest: Digest, g: seq<DatedEvent>)
    ensures CitedIds(earlier + [ConflictOf(digest, g)]) == CitedIds(earlier) + IdList(g)
    ensures earlier + [] == earlier && CitedIds(earlier) + [] == CitedIds(earlier)
  {
    var c := ConflictOf(digest, g);
    assert (earlier + [c])[..|earlier|] == earlier;
    assert seq(|c.refs|, i requires 0 <= i < |c.refs| => c.refs[i].id) == IdList(g);
  }

  /** A repeated disagreement: its name is free, and the events about the matter repeat an id or have an empty one. */
  ghost predicate Uncitable(digest: Digest, events: seq<DatedEvent>, before: seq<ConflictSet>, a: DatedEvent,
                            b: DatedEvent)
  {
    var ids := IdList(Alike(events, a));
    && a in events && b in events && SameLifeEvent(a, b) && DatesDiffer(a, b)
    && (forall c :: c in before ==> c.id != digest(multiset(ids)))
    && (!Distinct(ids) || "" in ids)
  }

  /** Exactly when `add_temporal_conflicts` raises. */
  lemma RaisesExactly(digest: Digest, events: seq<DatedEvent>, before: seq<ConflictSet>)
    ensures Raises(digest, events, before) <==> exists a, b :: Uncitable(digest, events, before, a, b)
  {
    GroupsAreDated(events);
    var groups := Grouped(events).Values();
    if Raises(digest, events, before) {
      var g :| g in groups && Reported(digest, g, ConflictIds(before)) && !Citable(g);
      var a, b := DisagreeingPair(events, g);
      assert Uncitable(digest, events, before, a, b) by {
        forall c | c in before ensures c.id != digest(multiset(IdList(g))) {
          assert c.id in ConflictIds(before);
        }
      }
    }
    if a, b :| Uncitable(digest, events, before, a, b) {
      var g := Members(events, KeyOf(a));
      KeyMeaning(a, b);
      MembersAreAlike(events, a);
      assert a in g && b in g;
      GroupOfKey(events, KeyOf(a));
      SeveralSignatures(g);
    }
  }

  lemma DisagreeingPair(events: seq<DatedEvent>, g: seq<DatedEvent>) returns (a: DatedEvent, b: DatedEvent)
    requires g in Grouped(events).Values() && (forall e :: e in g ==> e.date.Some?) && Disagree(g)
    ensures a in events && b in events && SameLifeEvent(a, b) && DatesDiffer(a, b) && Alike(events, a) == g
  {
    var key := KeyOfGroup(events, g);
    SeveralSignatures(g);
    a, b :| a in g && b in g && SignatureOf(a) != SignatureOf(b);
    MembersAreAlike(events, a);
    KeyMeaning(a, b);
  }

  lemma KeyOfGroup(events: seq<DatedEvent>, g: seq<DatedEvent>) returns (key: Key)
    requires g in Grouped(events).Values()
    ensures g == Members(events, key)
  {
    var d := Grouped(events);
    var i :| 0 <= i < |d.keys| && d.Values()[i] == g;
    key := d.KeyAt(i);
    GroupsAreMembers(events, key);
  }

  lemma {:induction false} NothingLeft(digest: Digest, groups: seq<seq<DatedEvent>>, existing: set<Id>)
    requires AllDated(groups)
    requires forall g :: g in groups && Disagree(g) ==> digest(Ids(g)) in existing
    ensures NewConflicts(digest, groups, existing) == [] && NewIssues(digest, groups, existing) == []
  {
    if groups != [] {
      NothingLeft(digest, groups[..|groups| - 1], existing);
    }
  }

  /** A second run adds no conflict and reports nothing. */
  lemma SecondRunAddsNothing(digest: Digest, events: seq<DatedEvent>, before: seq<ConflictSet>, after: seq<ConflictSet>,
                             issues: seq<Id>)
    requires Added(digest, events, before, after, issues)
    ensures Added(digest, events, after, after, [])
  {
    var groups := Grouped(events).Values();
    GroupsAreDated(events);
    forall g | g in groups && Disagree(g) ensures digest(Ids(g)) in ConflictIds(after) {
      NewConflictsExactly(digest, groups, ConflictIds(before), ConflictOf(digest, g));
      if digest(Ids(g)) in ConflictIds(before) {
        var c :| c in before && c.id == digest(Ids(g));
        assert c in after;
      } else {
        assert ConflictOf(digest, g) in after;
      }
    }
    NothingLeft(digest, groups, ConflictIds(after));
  }

  // ---- names ----

  ghost predicate UniqueConflicts(cs: seq<ConflictSet>) {
    forall i, j :: 0 <= i < j < |cs| ==> cs[i].id != cs[j].id
  }

  ghost predicate UniqueEvents(events: seq<DatedEvent>) {
    forall a, b :: a in events && b in events && a.id == b.id ==> a == b
  }

  ghost predicate Injective(digest: Digest) {
    forall m, n :: digest(m) == digest(n) ==> m == n
  }

  lemma IdsMembers(group: seq<DatedEvent>, id: Id)
    ensures id in Ids(group) <==> exists e :: e in group && e.id == id
  {
    if id in IdList(group) {
      var i :| 0 <= i < |group| && IdList(group)[i] == id;
      assert group[i] in group;
    }
    if e :| e in group && e.id == id {
      var i :| 0 <= i < |group| && group[i] == e;
      assert IdList(group)[i] == id;
    }
  }

  /** Groups of different keys share no event, so they have different names. */
  lemma NamesDiffer(digest: Digest, events: seq<DatedEvent>, i: nat, j: nat)
    requires Injective(digest) && UniqueEvents(events) && i < j < |Grouped(events).keys|
    ensures var groups := Grouped(events).Values(); digest(Ids(groups[i])) != digest(Ids(groups[j]))
  {
    var d := Grouped(events);
    var g, h := d.Values()[i], d.Values()[j];
    GroupsAreMembers(events, d.KeyAt(i));
    GroupsAreMembers(events, d.KeyAt(j));
    assert d.KeyAt(i) != d.KeyAt(j);
    var e := g[0];
    assert e in g;
    IdsMembers(g, e.id);
    IdsMembers(h, e.id);
    forall f | f in h ensures f.id != e.id {
      assert f in events && e in events && KeyOf(f) != KeyOf(e);
    }
  }

  ghost predicate NamesApart(digest: Digest, groups: seq<seq<DatedEvent>>) {
    forall i, j :: 0 <= i < j < |groups| ==> digest(Ids(groups[i])) != digest(Ids(groups[j]))
  }

  lemma NamedByGroup(digest: Digest, groups: seq<seq<DatedEvent>>, existing: set<Id>, c: ConflictSet)
    requires AllDated(groups) && c in NewConflicts(digest, groups, existing)
    ensures c.id !in existing && exists i :: 0 <= i < |groups| && c.id == digest(Ids(groups[i]))
  {
    NewConflictsExactly(digest, groups, existing, c);
    var g :| g in groups && Reported(digest, g, existing) && c == ConflictOf(digest, g);
    var i :| 0 <= i < |groups| && groups[i] == g;
  }

  lemma {:induction false} NewNamesUnique(digest: Digest, groups: seq<seq<DatedEvent>>, existing: set<Id>)
    requires AllDated(groups) && NamesApart(digest, groups)
    ensures UniqueConflicts(NewConflicts(digest, groups, existing))
  {
    if groups != [] {
      var n := |groups| - 1;
      NewNamesUnique(digest, groups[..n], existing);
      var earlier := NewConflicts(digest, groups[..n], existing);
      assert forall i :: 0 <= i < n ==> groups[..n][i] == groups[i];
      forall i | 0 <= i < |earlier| ensures earlier[i].id != digest(Ids(groups[n])) {
        NamedByGroup(digest, groups[..n], existing, earlier[i]);
      }
    }
  }

  /** Without digest collisions, unique event ids and unique conflict ids give unique conflict ids again. */
  lemma ConflictIdsStayUnique(digest: Digest, events: seq<DatedEvent>, before: seq<ConflictSet>,
                              after: seq<ConflictSet>, issues: seq<Id>)
    requires Added(digest, events, before, after, issues)
    requires Injective(digest) && UniqueEvents(events) && UniqueConflicts(before)
    ensures UniqueConflicts(after)
  {
    var groups := Grouped(events).Values();
    GroupsAreDated(events);
    forall i, j | 0 <= i < j < |groups| ensures digest(Ids(groups[i])) != digest(Ids(groups[j])) {
      NamesDiffer(digest, events, i, j);
    }
    NewNamesUnique(digest, groups, ConflictIds(before));
    var added := NewConflicts(digest, groups, ConflictIds(before));
    forall i, j | 0 <= i < |before| && 0 <= j < |added| ensures before[i].id != added[j].id {
      assert before[i].id in ConflictIds(before);
      NamedByGroup(digest, groups, ConflictIds(before), added[j]);
    }
  }
}
