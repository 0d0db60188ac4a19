/**
 * Bounded discourse contexts (`coreference_units.py`, `coreference_context.py`): which people an anaphor may refer
 * to. The linguistic finders (names, anaphors, kinship words, explicit pairs) are parameters.
 */
module CoreferenceContexts {
  import opened Common
  import opened Ordering
  import opened QuoteScopes
  import opened TextUnits

  const TARGET_WINDOW_CHARS := 110

  datatype NameOccurrence = NameOccurrence(mention: Id, start: nat, end: nat, scope: ScopeId)

  /** A match of a known name, before its quote scope is looked up. */
  datatype NameMatch = NameMatch(mention: Id, start: nat, end: nat)

  datatype Anaphor = Anaphor(surface: string, start: nat, end: nat, singular: bool)

  datatype Role = Parent | Child | Spouse | OlderSibling | YoungerSibling | Sibling

  datatype RelationType = ParentChild | SpouseOf | SiblingOf

  datatype KinshipFrame = KinshipFrame(relation: RelationType, possessor: Role, relative: Role)

  datatype Kinship = Kinship(start: nat, end: nat, frame: KinshipFrame)

  datatype Context = Context(
    segment: Id,
    anaphor: Anaphor,
    kinship: Kinship,
    candidates: seq<Id>,
    targets: seq<Id>,
    unit: TextUnit,
    resolved: bool
  )

  /** A transcript with its units and what the finders report about it. */
  datatype Discourse = Discourse(
    segments: seq<Id>,
    text: Id -> string,
    units: seq<TextUnit>,
    names: Id -> seq<NameMatch>,
    anaphors: Id -> seq<Anaphor>,
    nearestKinship: (Id, Anaphor) -> Option<Kinship>,
    explicitPair: (string, seq<Id>) -> bool
  )

  /** `person_occurrences`: every name match with the quote scope of its span. */
  function Occurrences(d: Discourse, segment: Id): (r: seq<NameOccurrence>)
    ensures |r| == |d.names(segment)|
  {
    var matches := d.names(segment);
    seq(|matches|, i requires 0 <= i < |matches| =>
          NameOccurrence(matches[i].mention, matches[i].start, matches[i].end,
                         SpanScope(d.text(segment), matches[i].start, matches[i].end).id))
  }

  /** `target_ids`: people named shortly after the kinship word, in the same quote scope. */
  function TargetIds(occurrences: seq<NameOccurrence>, kinshipEnd: nat, unitEnd: nat, scope: ScopeId): seq<Id> {
    Sorted(set o | o in occurrences && o.scope == scope && kinshipEnd <= o.start < unitEnd
                   && o.start - kinshipEnd <= TARGET_WINDOW_CHARS :: o.mention)
  }

  /** `unit_index_for_anaphor`: the first unit that contains the anaphor, or none if no unit does. */
  function UnitIndex(units: seq<TextUnit>, segment: Id, a: Anaphor): (i: Option<nat>)
    ensures i.Some? ==> i.value < |units| && Contains(units[i.value], segment, a)
    ensures i.Some? ==> forall j :: 0 <= j < i.value ==> !Contains(units[j], segment, a)
    ensures i.None? ==> forall j :: 0 <= j < |units| ==> !Contains(units[j], segment, a)
  {
    if units == [] then None
    else if Contains(units[0], segment, a) then Some(0)
    else
      match UnitIndex(units[1..], segment, a)
      case None => None
      case Some(j) => Some(j + 1)
  }

  predicate Contains(u: TextUnit, segment: Id, a: Anaphor) {
    u.segment == segment && u.start <= a.start && a.end <= u.end
  }

  /** `_context_char_count` */
  function ContextChars(previous: TextUnit, current: TextUnit): int {
    if previous.segment == current.segment then current.end - previous.start
    else |previous.text| + 1 + |current.text|
  }

  /** `context_units`: the current unit, preceded by its neighbour if both fit. */
  function ContextUnits(units: seq<TextUnit>, index: nat): (r: seq<TextUnit>)
    requires index < |units|
    ensures 1 <= |r| <= 2 && r[|r| - 1] == units[index]
    ensures |r| == 2 <==> index > 0 && ContextChars(units[index - 1], units[index]) <= MAX_CONTEXT_CHARS
    ensures |r| == 2 ==> r[0] == units[index - 1]
  {
    if index > 0 && ContextChars(units[index - 1], units[index]) <= MAX_CONTEXT_CHARS
    then [units[index - 1], units[index]] else [units[index]]
  }

  /** People other than `excluded` named in `scope` inside `[lo, hi]`. */
  function NamedIn(occurrences: seq<NameOccurrence>, excluded: set<Id>, scope: ScopeId, lo: nat, hi: nat): set<Id> {
    set o | o in occurrences && o.mention !in excluded && o.scope == scope && lo <= o.start && o.end <= hi :: o.mention
  }

  /** `candidate_ids` */
  function CandidateIds(d: Discourse, selected: seq<TextUnit>, current: TextUnit, a: Anaphor,
                        excluded: set<Id>): seq<Id> {
    var scope := SpanScope(d.text(current.segment), a.start, a.end);
    if !IsOutsideQuote(scope) then
      []
    else
      var local := NamedIn(Occurrences(d, current.segment), excluded, scope.id, current.start, a.start);
      if local != {} then Sorted(local)
      else if |selected| < 2 then []
      else
        var previous := selected[|selected| - 2];
        Sorted(NamedIn(Occurrences(d, previous.segment), excluded, scope.id, previous.start, previous.end))
  }

  /** The wanted people named anywhere in the unit, in any quote scope. */
  function PresentIn(d: Discourse, u: TextUnit, wanted: set<Id>): set<Id> {
    set o | o in Occurrences(d, u.segment) && u.start <= o.start && o.end <= u.end && o.mention in wanted :: o.mention
  }

  /** `candidate_context_unit`: the last selected unit that names every candidate. */
  function CandidateContextUnit(d: Discourse, selected: seq<TextUnit>, candidates: seq<Id>): (u: Option<TextUnit>)
    ensures u.Some? ==> u.value in selected
  {
    if selected == [] then None
    else if PresentIn(d, selected[|selected| - 1], ToSet(candidates)) == ToSet(candidates) then
      Some(selected[|selected| - 1])
    else CandidateContextUnit(d, selected[..|selected| - 1], candidates)
  }

  /** `_is_explicit_pair`, every candidate being a known person. */
  predicate IsExplicitPair(d: Discourse, candidates: seq<Id>, u: TextUnit) {
    |candidates| == 2 && d.explicitPair(u.text, candidates)
  }

  /** The branches of `bounded_coreference_contexts` for one anaphor. */
  function ContextFor(d: Discourse, segment: Id, a: Anaphor): Option<Context> {
    var index := UnitIndex(d.units, segment, a);
    if index.None? then None
    else
      var current := d.units[index.value];
      var kinship := d.nearestKinship(segment, a);
      if kinship.None? || !(current.start <= kinship.value.start && kinship.value.end <= current.end) then None
      else
        var k := kinship.value;
        var scope := SpanScope(d.text(segment), a.start, a.end);
        var kinshipScope := SpanScope(d.text(segment), k.start, k.end);
        if !IsOutsideQuote(scope) || kinshipScope.id != scope.id || kinshipScope.malformed then None
        else
          var targets := TargetIds(Occurrences(d, segment), k.end, current.end, scope.id);
          var selected := ContextUnits(d.units, index.value);
          var candidates := CandidateIds(d, selected, current, a, ToSet(targets));
          if candidates == [] then None
          else
            var unit := CandidateContextUnit(d, selected, candidates);
            if unit.None? then None
            else
              var resolved := if a.singular then |candidates| == 1 else IsExplicitPair(d, candidates, unit.value);
              Some(Context(segment, a, k, candidates, targets, unit.value, resolved))
  }

  function ContextsOf(d: Discourse, segment: Id, anaphors: seq<Anaphor>): seq<Context> {
    if anaphors == [] then []
    else ContextsOf(d, segment, anaphors[..|anaphors| - 1]) + AsList(ContextFor(d, segment, anaphors[|anaphors| - 1]))
  }

  function AsList<T>(o: Option<T>): seq<T> {
    match o
    case None => []
    case Some(x) => [x]
  }

  lemma ContextsSnoc(d: Discourse, segment: Id, anaphors: seq<Anaphor>, j: nat)
    requires j < |anaphors|
    ensures ContextsOf(d, segment, anaphors[..j + 1]) ==
            ContextsOf(d, segment, anaphors[..j]) + AsList(ContextFor(d, segment, anaphors[j]))
  {
    var prefix := anaphors[..j + 1];
    assert prefix[..j] == anaphors[..j] && prefix[j] == anaphors[j];
  }

  function AllContexts(d: Discourse, segments: seq<Id>): seq<Context> {
    if segments == [] then []
    else
      var s := segments[|segments| - 1];
      AllContexts(d, segments[..|segments| - 1]) + ContextsOf(d, s, d.anaphors(s))
  }

  lemma AllContextsSnoc(d: Discourse, segments: seq<Id>, i: nat)
    requires i < |segments|
    ensures AllContexts(d, segments[..i + 1]) ==
            AllContexts(d, segments[..i]) + ContextsOf(d, segments[i], d.anaphors(segments[i]))
  {
    var prefix := segments[..i + 1];
    assert prefix[..i] == segments[..i] && prefix[i] == segments[i];
  }

  /** `bounded_coreference_contexts`: every context it returns is justified. */
  method BoundedContexts(d: Discourse) returns (contexts: seq<Context>)
    ensures contexts == AllContexts(d, d.segments)
    ensures forall c :: c in contexts ==> Justified(d, c)
  {
    contexts := [];
    for i := 0 to |d.segments|
      invariant contexts == AllContexts(d, d.segments[..i])
    {
      AllContextsSnoc(d, d.segments, i);
      var found := SegmentContexts(d, d.segments[i]);
      contexts := contexts + found;
    }
    assert d.segments[..|d.segments|] == d.segments;
    AllJustified(d, d.segments);
  }

  method SegmentContexts(d: Discourse, segment: Id) returns (contexts: seq<Context>)
    ensures contexts == ContextsOf(d, segment, d.anaphors(segment))
  {
    var anaphors := d.anaphors(segment);
    contexts := [];
    for j := 0 to |anaphors|
      invariant contexts == ContextsOf(d, segment, anaphors[..j])
    {
      ContextsSnoc(d, segment, anaphors, j);
      var c := ExamineAnaphor(d, segment, anaphors[j]);
      if c.Some? {
        contexts := contexts + [c.value];
      }
    }
    assert anaphors[..|anaphors|] == anaphors;
  }

  /**
   * The loop body of `bounded_coreference_contexts`; `None` where the source continues. There is a context exactly for
   * an eligible anaphor, and it is justified.
   */
  method ExamineAnaphor(d: Discourse, segment: Id, a: Anaphor) returns (c: Option<Context>)
    ensures c == ContextFor(d, segment, a)
    ensures c.Some? ==> Justified(d, c.value) && c.value.segment == segment && c.value.anaphor == a
    ensures a.start <= a.end ==> (c.Some? <==> Eligible(d, segment, a))
  {
    if ContextFor(d, segment, a).Some? {
      ContextIsJustified(d, segment, a);
    }
    if a.start <= a.end {
      ContextExactly(d, segment, a);
    }
    var index := UnitIndex(d.units, segment, a);
    if index.None? {
      return None;
    }
    var current := d.units[index.value];
    var kinship := d.nearestKinship(segment, a);
    if kinship.None? || !(current.start <= kinship.value.start && kinship.value.end <= current.end) {
      return None;
    }
    var k := kinship.value;
    var scope := SpanScope(d.text(segment), a.start, a.end);
    var kinshipScope := SpanScope(d.text(segment), k.start, k.end);
    if scope.id != Outside || scope.malformed || kinshipScope.id != scope.id || kinshipScope.malformed {
      return None;
    }
    var targets := TargetIds(Occurrences(d, segment), k.end, current.end, scope.id);
    var selected := ContextUnits(d.units, index.value);
    var candidates := CandidateIds(d, selected, current, a, ToSet(targets));
    if candidates == [] {
      return None;
    }
    var unit := CandidateContextUnit(d, selected, candidates);
    if unit.None? {
      return None;
    }
    var resolved := if a.singular then |candidates| == 1 else IsExplicitPair(d, candidates, unit.value);
    c := Some(Context(segment, a, k, candidates, targets, unit.value, resolved));
  }

  // ---- what a context means ----

  /** A name of `m` outside all quotations, inside the stretch, and `m` not excluded. */
  ghost predicate NamedOutside(d: Discourse, segment: Id, m: Id, excluded: set<Id>, lo: nat, hi: nat) {
    && m !in excluded
    && exists n :: n in d.names(segment) && n.mention == m && lo <= n.start && n.end <= hi
                   && SpanScope(d.text(segment), n.start, n.end).id == Outside
  }

  /** The unit of an anaphor and, when allowed, the one before it. */
  ghost predicate IsPrevious(d: Discourse, index: nat, previous: TextUnit) {
    && 0 < index < |d.units| && previous == d.units[index - 1]
    && var current := d.units[index];
       if previous.segment == current.segment then current.end - previous.start <= 420
       else |previous.text| + 1 + |current.text| <= 420
  }

  /** Every one of these people is named inside the unit, in whatever quote scope. */
  ghost predicate NamesAll(d: Discourse, u: TextUnit, people: seq<Id>) {
    forall m :: m in people ==> NamedInside(d, u, m)
  }

  ghost predicate NamedInside(d: Discourse, u: TextUnit, m: Id) {
    exists n :: n in d.names(u.segment) && n.mention == m && u.start <= n.start && n.end <= u.end
  }

  /**
   * The candidates are exactly the people who are not targets and are named, unquoted, before the anaphor in its
   * own unit or, only if there is no such person, in the preceding unit with both units within 420 characters. The
   * context unit names all of them, and is the anaphor's own unit if that one does. A singular anaphor is resolved by a
   * single candidate, a plural one by two that the context unit names as a pair.
   */
  ghost predicate Justified(d: Discourse, c: Context) {
    var a, targets := c.anaphor, ToSet(c.targets);
    && IsOutsideQuote(SpanScope(d.text(c.segment), a.start, a.end))
    && SpanScope(d.text(c.segment), c.kinship.start, c.kinship.end) == QuoteScope(Outside, false)
    && c.candidates != [] && Ascending(c.candidates) && (forall m :: m in c.candidates ==> m !in c.targets)
    && c.resolved == (if a.singular then |c.candidates| == 1
                      else |c.candidates| == 2 && d.explicitPair(c.unit.text, c.candidates))
    && NamesAll(d, c.unit, c.candidates)
    && exists index: nat ::
         && index < |d.units|
         && d.units[index].segment == c.segment && d.units[index].start <= a.start && a.end <= d.units[index].end
         && d.units[index].start <= c.kinship.start && c.kinship.end <= d.units[index].end
         && (c.unit == d.units[index] || (IsPrevious(d, index, c.unit) && !NamesAll(d, d.units[index], c.candidates)))
         && CandidatesAre(d, c.segment, c.anaphor, index, ToSet(c.targets), c.candidates)
         && TargetsAre(d, c.segment, c.kinship.end, d.units[index].end, c.targets)
  }

  /** `m` is named, unquoted, at most 110 characters after the kinship word and before the unit ends. */
  ghost predicate IsTarget(d: Discourse, segment: Id, m: Id, kinshipEnd: nat, unitEnd: nat) {
    exists n :: n in d.names(segment) && n.mention == m && kinshipEnd <= n.start < unitEnd
                && n.start - kinshipEnd <= 110
                && SpanScope(d.text(segment), n.start, n.end).id == Outside
  }

  /** The targets are exactly these people, each once, in text order. */
  ghost predicate TargetsAre(d: Discourse, segment: Id, kinshipEnd: nat, unitEnd: nat, targets: seq<Id>) {
    && Ascending(targets)
    && forall m :: m in targets <==> IsTarget(d, segment, m, kinshipEnd, unitEnd)
  }

  ghost predicate CandidatesAre(d: Discourse, segment: Id, a: Anaphor, index: nat, targets: set<Id>,
                                candidates: seq<Id>)
    requires index < |d.units|
  {
    var lo := d.units[index].start;
    || (forall m :: m in candidates <==> NamedOutside(d, segment, m, targets, lo, a.start))
    || (&& (forall m :: !NamedOutside(d, segment, m, targets, lo, a.start))
        && exists previous: TextUnit ::
             IsPrevious(d, index, previous) && CandidatesIn(d, previous, targets, candidates))
  }

  ghost predicate CandidatesIn(d: Discourse, u: TextUnit, targets: set<Id>, candidates: seq<Id>) {
    forall m :: m in candidates <==> NamedOutside(d, u.segment, m, targets, u.start, u.end)
  }

  lemma OccurrenceOf(d: Discourse, segment: Id, o: NameOccurrence)
    ensures o in Occurrences(d, segment) <==>
            exists n :: n in d.names(segment) && o == NameOccurrence(n.mention, n.start, n.end,
                                                     SpanScope(d.text(segment), n.start, n.end).id)
  {
    var r, names := Occurrences(d, segment), d.names(segment);
    if n :| n in names && o == NameOccurrence(n.mention, n.start, n.end,
                                              SpanScope(d.text(segment), n.start, n.end).id) {
      var i :| 0 <= i < |names| && names[i] == n;
      assert r[i] == o;
    }
  }

  lemma NamedInMeaning(d: Discourse, segment: Id, excluded: set<Id>, lo: nat, hi: nat, m: Id)
    ensures m in NamedIn(Occurrences(d, segment), excluded, Outside, lo, hi) <==>
            NamedOutside(d, segment, m, excluded, lo, hi)
  {
    var os := Occurrences(d, segment);
    if m in NamedIn(os, excluded, Outside, lo, hi) {
      var o :| && o in os && o.mention == m && o.mention !in excluded
               && o.scope == Outside && lo <= o.start && o.end <= hi;
      OccurrenceOf(d, segment, o);
    }
    if NamedOutside(d, segment, m, excluded, lo, hi) {
      var n :| n in d.names(segment) && n.mention == m && lo <= n.start && n.end <= hi
               && SpanScope(d.text(segment), n.start, n.end).id == Outside;
      OccurrenceOf(d, segment, NameOccurrence(n.mention, n.start, n.end, Outside));
    }
  }

  lemma SortedMembers(s: set<Id>)
    ensures Ascending(Sorted(s)) && forall m :: m in Sorted(s) <==> m in s
  {
    SortedIs(s);
    assert forall m :: m in Sorted(s) <==> m in ToSet(Sorted(s));
  }

  /** What `target_ids` returns for the unquoted scope. */
  lemma TargetIdsMeaning(d: Discourse, segment: Id, kinshipEnd: nat, unitEnd: nat)
    ensures TargetsAre(d, segment, kinshipEnd, unitEnd,
                       TargetIds(Occurrences(d, segment), kinshipEnd, unitEnd, Outside))
  {
    var os := Occurrences(d, segment);
    var found := set o | o in os && o.scope == Outside && kinshipEnd <= o.start < unitEnd
                         && o.start - kinshipEnd <= TARGET_WINDOW_CHARS :: o.mention;
    SortedMembers(found);
    forall m ensures m in found <==> IsTarget(d, segment, m, kinshipEnd, unitEnd) {
      if m in found {
        var o :| o in os && o.mention == m && o.scope == Outside && kinshipEnd <= o.start < unitEnd
                 && o.start - kinshipEnd <= TARGET_WINDOW_CHARS;
        OccurrenceOf(d, segment, o);
      }
      if IsTarget(d, segment, m, kinshipEnd, unitEnd) {
        var n :| n in d.names(segment) && n.mention == m && kinshipEnd <= n.start < unitEnd
                 && n.start - kinshipEnd <= TARGET_WINDOW_CHARS
                 && SpanScope(d.text(segment), n.start, n.end).id == Outside;
        OccurrenceOf(d, segment, NameOccurrence(n.mention, n.start, n.end, Outside));
      }
    }
  }

  /** Where the candidates came from names them all, so the search for a context unit never fails. */
  lemma CandidatesArePresent(d: Discourse, u: TextUnit, excluded: set<Id>, hi: nat)
    requires hi <= u.end
    ensures var found := NamedIn(Occurrences(d, u.segment), excluded, Outside, u.start, hi);
      PresentIn(d, u, found) == found
  {
    var os := Occurrences(d, u.segment);
    var found := NamedIn(os, excluded, Outside, u.start, hi);
    forall m | m in found ensures m in PresentIn(d, u, found) {
      var o :| o in os && o.mention == m && u.start <= o.start && o.end <= hi;
    }
  }

  /** The stretch in which the candidates of an anaphor were found. */
  function CandidateSource(d: Discourse, index: nat, a: Anaphor, excluded: set<Id>): set<Id>
    requires index < |d.units|
  {
    var current, selected := d.units[index], ContextUnits(d.units, index);
    var local := NamedIn(Occurrences(d, current.segment), excluded, Outside, current.start, a.start);
    if local != {} then local
    else if |selected| < 2 then {}
    else NamedIn(Occurrences(d, selected[0].segment), excluded, Outside, selected[0].start, selected[0].end)
  }

  lemma CandidatesAreSorted(d: Discourse, index: nat, a: Anaphor, excluded: set<Id>)
    requires index < |d.units| && IsOutsideQuote(SpanScope(d.text(d.units[index].segment), a.start, a.end))
    ensures CandidateIds(d, ContextUnits(d.units, index), d.units[index], a, excluded) ==
            Sorted(CandidateSource(d, index, a, excluded))
  {
    SortedIs({});
  }

  lemma PresentMeaning(d: Discourse, u: TextUnit, people: seq<Id>)
    ensures PresentIn(d, u, ToSet(people)) == ToSet(people) <==> NamesAll(d, u, people)
  {
    var present := PresentIn(d, u, ToSet(people));
    forall m ensures m in present <==> m in people && NamedInside(d, u, m) {
      if m in present {
        var o :| o in Occurrences(d, u.segment) && o.mention == m && u.start <= o.start && o.end <= u.end;
        OccurrenceOf(d, u.segment, o);
      }
      if m in people && NamedInside(d, u, m) {
        var n :| n in d.names(u.segment) && n.mention == m && u.start <= n.start && n.end <= u.end;
        OccurrenceOf(d, u.segment, NameOccurrence(m, n.start, n.end,
                                                  SpanScope(d.text(u.segment), n.start, n.end).id));
      }
    }
    if NamesAll(d, u, people) {
      assert forall m :: m in ToSet(people) ==> m in present;
    } else {
      var m :| m in people && !NamedInside(d, u, m);
      assert m in ToSet(people) && m !in present;
    }
  }

  /** The context unit names all candidates, and no later selected unit does. */
  lemma ContextUnitNamesAll(d: Discourse, index: nat, candidates: seq<Id>)
    requires index < |d.units|
    ensures var u := CandidateContextUnit(d, ContextUnits(d.units, index), candidates);
      u.Some? ==> NamesAll(d, u.value, candidates) && (u.value == d.units[index] ||
                  (IsPrevious(d, index, u.value) && !NamesAll(d, d.units[index], candidates)))
  {
    var selected := ContextUnits(d.units, index);
    PresentMeaning(d, d.units[index], candidates);
    if |selected| == 2 {
      PresentMeaning(d, selected[0], candidates);
      assert selected[..1] == [selected[0]] && [selected[0]][..0] == [];
    } else {
      assert selected[..0] == [];
    }
  }

  /** The branch without a context unit is never taken. */
  lemma ContextUnitExists(d: Discourse, segment: Id, a: Anaphor, index: nat, excluded: set<Id>)
    requires index < |d.units| && Contains(d.units[index], segment, a) && a.start <= a.end
    ensures var selected := ContextUnits(d.units, index);
      var candidates := CandidateIds(d, selected, d.units[index], a, excluded);
      candidates != [] ==> CandidateContextUnit(d, selected, candidates).Some?
  {
    var selected, current := ContextUnits(d.units, index), d.units[index];
    var candidates := CandidateIds(d, selected, current, a, excluded);
    if candidates != [] {
      CandidatesAreSorted(d, index, a, excluded);
      var source := CandidateSource(d, index, a, excluded);
      SortedIs(source);
      SourceIsPresent(d, index, a, excluded);
      FoundInOneOf(d, selected, candidates);
    }
  }

  /** The unit in which the candidates were found names them all. */
  lemma SourceIsPresent(d: Discourse, index: nat, a: Anaphor, excluded: set<Id>)
    requires index < |d.units| && a.start <= d.units[index].end
    ensures var source := CandidateSource(d, index, a, excluded);
      source != {} ==> exists u :: u in ContextUnits(d.units, index) && PresentIn(d, u, source) == source
  {
    var current, selected := d.units[index], ContextUnits(d.units, index);
    CandidatesArePresent(d, current, excluded, a.start);
    assert current in selected;
    if |selected| == 2 {
      CandidatesArePresent(d, selected[0], excluded, selected[0].end);
      assert selected[0] in selected;
    }
  }

  lemma FoundInOneOf(d: Discourse, selected: seq<TextUnit>, candidates: seq<Id>)
    requires exists u :: u in selected && PresentIn(d, u, ToSet(candidates)) == ToSet(candidates)
    ensures CandidateContextUnit(d, selected, candidates).Some?
  {
    var u :| u in selected && PresentIn(d, u, ToSet(candidates)) == ToSet(candidates);
    if PresentIn(d, selected[|selected| - 1], ToSet(candidates)) != ToSet(candidates) {
      assert u in selected[..|selected| - 1];
      FoundInOneOf(d, selected[..|selected| - 1], candidates);
    }
  }

  /** What `candidate_ids` returns. */
  lemma CandidatesMeaning(d: Discourse, segment: Id, a: Anaphor, index: nat, targets: set<Id>)
    requires index < |d.units| && Contains(d.units[index], segment, a)
    requires IsOutsideQuote(SpanScope(d.text(segment), a.start, a.end))
    ensures var candidates := CandidateIds(d, ContextUnits(d.units, index), d.units[index], a, targets);
      && Ascending(candidates)
      && (candidates != [] ==> CandidatesAre(d, segment, a, index, targets, candidates))
      && (forall m :: m in candidates ==> m !in targets)
      && (candidates != [] <==> SomeoneQualifies(d, segment, a, index, targets))
  {
    var candidates := CandidateIds(d, ContextUnits(d.units, index), d.units[index], a, targets);
    CandidatesAreSorted(d, index, a, targets);
    var source := CandidateSource(d, index, a, targets);
    SortedIs(source);
    SortedMembers(source);
    SourceMeaning(d, segment, a, index, targets);
    assert forall m :: m in candidates <==> m in source;
    if source != {} && (forall m :: !NamedOutside(d, segment, m, targets, d.units[index].start, a.start)) {
      var previous := d.units[index - 1];
      assert CandidatesIn(d, previous, targets, candidates);
    }
  }

  /** Somebody is named, unquoted, where a candidate may be named. */
  ghost predicate SomeoneQualifies(d: Discourse, segment: Id, a: Anaphor, index: nat, targets: set<Id>)
    requires index < |d.units|
  {
    || (exists m :: NamedOutside(d, segment, m, targets, d.units[index].start, a.start))
    || (exists previous, m :: IsPrevious(d, index, previous) &&
          NamedOutside(d, previous.segment, m, targets, previous.start, previous.end))
  }

  lemma SourceMeaning(d: Discourse, segment: Id, a: Anaphor, index: nat, targets: set<Id>)
    requires index < |d.units| && Contains(d.units[index], segment, a)
    ensures var source, lo := CandidateSource(d, index, a, targets), d.units[index].start;
      && (source != {} <==> SomeoneQualifies(d, segment, a, index, targets))
      && (forall m :: m in source ==> m !in targets)
      && ((exists m :: NamedOutside(d, segment, m, targets, lo, a.start)) ==>
            forall m :: m in source <==> NamedOutside(d, segment, m, targets, lo, a.start))
      && ((forall m :: !NamedOutside(d, segment, m, targets, lo, a.start)) && source != {} ==>
            IsPrevious(d, index, d.units[index - 1]) &&
            forall m :: m in source <==>
              NamedOutside(d, d.units[index - 1].segment, m, targets, d.units[index - 1].start, d.units[index - 1].end))
  {
    var current, selected := d.units[index], ContextUnits(d.units, index);
    var local := NamedIn(Occurrences(d, segment), targets, Outside, current.start, a.start);
    forall m ensures m in local <==> NamedOutside(d, segment, m, targets, current.start, a.start) {
      NamedInMeaning(d, segment, targets, current.start, a.start, m);
    }
    if |selected| == 2 {
      var previous := selected[0];
      assert IsPrevious(d, index, previous);
      forall m
        ensures m in NamedIn(Occurrences(d, previous.segment), targets, Outside, previous.start, previous.end) <==>
                NamedOutside(d, previous.segment, m, targets, previous.start, previous.end)
      {
        NamedInMeaning(d, previous.segment, targets, previous.start, previous.end, m);
      }
    }
  }

  /** Every context is justified. */
  lemma ContextIsJustified(d: Discourse, segment: Id, a: Anaphor)
    requires ContextFor(d, segment, a).Some?
    ensures Justified(d, ContextFor(d, segment, a).value)
  {
    var c := ContextFor(d, segment, a).value;
    var index := UnitIndex(d.units, segment, a).value;
    CandidatesMeaning(d, segment, a, index, ToSet(c.targets));
    TargetIdsMeaning(d, segment, c.kinship.end, d.units[index].end);
    SelectedUnits(d, index, c.unit);
    ContextUnitNamesAll(d, index, c.candidates);
    assert CandidatesAre(d, segment, a, index, ToSet(c.targets), c.candidates);
    forall m | m in c.candidates ensures m !in c.targets {
      assert m in c.targets ==> m in ToSet(c.targets);
    }
  }

  /**
   * An anaphor has a context: it lies in a unit, the nearest kinship word lies in the same unit, both are outside all
   * quotations, and somebody who is not a target qualifies as its antecedent.
   */
  ghost predicate Eligible(d: Discourse, segment: Id, a: Anaphor) {
    var index, kinship := UnitIndex(d.units, segment, a), d.nearestKinship(segment, a);
    && index.Some? && kinship.Some?
    && d.units[index.value].start <= kinship.value.start && kinship.value.end <= d.units[index.value].end
    && IsOutsideQuote(SpanScope(d.text(segment), a.start, a.end))
    && IsOutsideQuote(SpanScope(d.text(segment), kinship.value.start, kinship.value.end))
    && SomeoneQualifies(d, segment, a, index.value,
                        set m | m in TargetIds(Occurrences(d, segment), kinship.value.end, d.units[index.value].end,
                                               Outside))
  }

  /** There is a context exactly for the eligible anaphors. */
  lemma ContextExactly(d: Discourse, segment: Id, a: Anaphor)
    requires a.start <= a.end
    ensures ContextFor(d, segment, a).Some? <==> Eligible(d, segment, a)
  {
    var index, kinship := UnitIndex(d.units, segment, a), d.nearestKinship(segment, a);
    if index.Some? && kinship.Some? && IsOutsideQuote(SpanScope(d.text(segment), a.start, a.end)) {
      var targets := ToSet(TargetIds(Occurrences(d, segment), kinship.value.end, d.units[index.value].end, Outside));
      CandidatesMeaning(d, segment, a, index.value, targets);
      ContextUnitExists(d, segment, a, index.value, targets);
    }
  }

  lemma SelectedUnits(d: Discourse, index: nat, u: TextUnit)
    requires index < |d.units| && u in ContextUnits(d.units, index)
    ensures u == d.units[index] || IsPrevious(d, index, u)
  {
  }

  lemma {:induction false} SegmentJustified(d: Discourse, segment: Id, anaphors: seq<Anaphor>)
    ensures forall c :: c in ContextsOf(d, segment, anaphors) ==> Justified(d, c)
  {
    if anaphors != [] {
      var a := anaphors[|anaphors| - 1];
      SegmentJustified(d, segment, anaphors[..|anaphors| - 1]);
      if ContextFor(d, segment, a).Some? {
        ContextIsJustified(d, segment, a);
      }
    }
  }

  lemma {:induction false} AllJustified(d: Discourse, segments: seq<Id>)
    ensures forall c :: c in AllContexts(d, segments) ==> Justified(d, c)
  {
    if segments != [] {
      var s := segments[|segments| - 1];
      AllJustified(d, segments[..|segments| - 1]);
      SegmentJustified(d, s, d.anaphors(s));
    }
  }

  /** A singular anaphor is resolved exactly when no two different people qualify. */
  lemma SingularIsUnique(d: Discourse, c: Context)
    requires Justified(d, c) && c.anaphor.singular
    ensures c.resolved <==> forall m, n :: m in c.candidates && n in c.candidates ==> m == n
  {
    if |c.candidates| > 1 {
      assert c.candidates[0] in c.candidates && c.candidates[1] in c.candidates;
      assert c.candidates[0] != c.candidates[1];
    } else {
      assert forall m :: m in c.candidates ==> m == c.candidates[0];
    }
  }
}
