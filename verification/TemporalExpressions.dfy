/**
 * The date normaliser (`claim_semantics.py`, `parse_temporal_expression`). What its regular expressions find in the
 * text is an input; the branches on those findings are the model.
 */
module TemporalExpressions {
  import opened Common
  import opened Ordering
  import opened IsoDates

  datatype Kind = UnknownKind | ExactDate | MonthYear | Approximate | RangeKind | DecadeKind | Relative | YearKind

  datatype Precision =
    | UnknownPrecision | DayPrecision | MonthPrecision | YearPrecision | RangePrecision | DecadePrecision

  datatype Relation = Between | AtAge | Before | After

  datatype Code =
    | ValueInvalid | FormatAmbiguous | AnchorMissing | RangeInvalid | Unresolved | EvidenceUnsupported
    | PrecisionOverstated

  datatype EventDate = EventDate(
    original: string,
    kind: Kind,
    precision: Precision,
    value: Option<string> := None,
    lower: Option<string> := None,
    upper: Option<string> := None,
    approximate: bool := false,
    relation: Option<Relation> := None,
    unresolved: string := "")

  datatype Normalization = Normalization(date: Option<EventDate>, issues: seq<Code>)

  // ---- what the searches find ----

  datatype Position = Start | Middle | End

  datatype DecadeName = Sixties | Seventies | Eighties | Nineties | TwoThousands {
    function Base(): (base: nat)
      ensures 1960 <= base <= 2000 && base % 10 == 0
    {
      match this
      case Sixties => 1960
      case Seventies => 1970
      case Eighties => 1980
      case Nineties => 1990
      case TwoThousands => 2000
    }
  }

  datatype DecadeMatch = DecadeMatch(name: DecadeName, position: Option<Position>)

  datatype DayMatch = DayMatch(day: nat, month: nat, year: Option<nat>)

  datatype MonthMatch = MonthMatch(year: nat, month: nat)

  /** The first match of every expression in the stripped text, with its groups. */
  datatype Found = Found(
    text: string,
    ambiguousNumeric: bool,
    iso: Option<Day>,
    exact: Option<DayMatch>,
    month: Option<MonthMatch>,
    range: Option<(nat, nat)>,
    ruDecade: Option<DecadeMatch>,
    kkDecade: Option<DecadeMatch>,
    age: bool,
    year: Option<nat>,
    approximate: bool,
    before: bool,
    after: bool) {

    /** What the digit counts and month names of the expressions guarantee. */
    predicate Valid() {
      && (iso.Some? ==> Printable(iso.value))
      && (exact.Some? ==> exact.value.day <= 99 && 1 <= exact.value.month <= 12)
      && (exact.Some? && exact.value.year.Some? ==> exact.value.year.value <= 9999)
      && (month.Some? ==> month.value.year <= 9999 && 1 <= month.value.month <= 12)
      && (range.Some? ==> 1500 <= range.value.0 <= 2099 && 1500 <= range.value.1 <= 2099)
      && (year.Some? ==> 1500 <= year.value <= 2199)
    }
  }

  // ---- the normaliser ----

  function Unanchored(text: string, precision: Precision, reason: string, relation: Option<Relation>): Normalization {
    Normalization(Some(EventDate(text, Relative, precision, relation := relation, unresolved := reason)),
                  [AnchorMissing])
  }

  function ExactDay(text: string, d: Day): Normalization
    requires Printable(d)
  {
    if !RealDay(d) then Normalization(None, [ValueInvalid])
    else Normalization(Some(EventDate(text, ExactDate, DayPrecision, value := Some(IsoDay(d)))), [])
  }

  /** The last day of a month as the source writes it out; year 0 has no 29 February. */
  function LastDay(year: nat, month: nat): nat {
    if month in {1, 3, 5, 7, 8, 10, 12} then 31
    else if month != 2 then 30
    else if RealDay(Day(year, 2, 29)) then 29
    else 28
  }

  function Month(text: string, m: MonthMatch, approximate: bool): Normalization
    requires m.year <= 9999 && 1 <= m.month <= 12
  {
    var value := Some(IsoMonth(m.year, m.month));
    if approximate then
      Normalization(Some(EventDate(text, Approximate, MonthPrecision, value := value,
        lower := Some(IsoDay(Day(m.year, m.month, 1))),
        upper := Some(IsoDay(Day(m.year, m.month, LastDay(m.year, m.month)))), approximate := true)), [])
    else
      Normalization(Some(EventDate(text, MonthYear, MonthPrecision, value := value)), [])
  }

  function EndOf(year: nat): string
    requires year <= 9999
  {
    IsoDay(Day(year, 12, 31))
  }

  function YearRange(text: string, r: (nat, nat)): Normalization
    requires r.0 <= 9999 && r.1 <= 9999
  {
    if r.0 > r.1 then Normalization(None, [RangeInvalid])
    else Normalization(Some(EventDate(text, RangeKind, RangePrecision, lower := Some(IsoYear(r.0)),
                                      upper := Some(EndOf(r.1)), relation := Some(Between))), [])
  }

  /** The first and last year of (a part of) a decade. */
  function DecadeYears(d: DecadeMatch): (nat, nat) {
    var base := d.name.Base();
    match d.position
    case Some(Start) => (base, base + 3)
    case Some(Middle) => (base + 3, base + 6)
    case Some(End) => (base + 7, base + 9)
    case None => (base, base + 9)
  }

  function Decade(text: string, d: DecadeMatch): Normalization {
    var (first, last) := DecadeYears(d);
    Normalization(Some(EventDate(text, DecadeKind, DecadePrecision, lower := Some(IsoYear(first)),
                                 upper := Some(EndOf(last)), approximate := true)), [])
  }

  function Year(f: Found): Normalization
    requires f.Valid() && f.year.Some?
  {
    var y := f.year.value;
    if f.before then
      Normalization(Some(EventDate(f.text, Relative, YearPrecision, upper := Some(EndOf(y - 1)),
                                   relation := Some(Before),
                                   unresolved := "semantic_anchor_not_identified")), [AnchorMissing])
    else if f.after then
      Normalization(Some(EventDate(f.text, Relative, YearPrecision, lower := Some(IsoYear(y + 1)),
                                   relation := Some(After),
                                   unresolved := "semantic_anchor_not_identified")), [AnchorMissing])
    else if f.approximate then
      Normalization(Some(EventDate(f.text, Approximate, YearPrecision, value := Some(IsoYear(y)),
                                   lower := Some(IsoYear(y - 1)), upper := Some(EndOf(y + 1)), approximate := true)),
                    [])
    else Normalization(Some(EventDate(f.text, YearKind, YearPrecision, value := Some(IsoYear(y)))), [])
  }

  function Unknown(text: string, reason: string, issue: Code): Normalization {
    Normalization(Some(EventDate(text, UnknownKind, UnknownPrecision, unresolved := reason)), [issue])
  }

  /** `parse_temporal_expression`: the branches in the order of the source. */
  function Parse(f: Found): Normalization
    requires f.Valid()
  {
    if f.text == "" then Normalization(None, [ValueInvalid])
    else if f.ambiguousNumeric then Unknown(f.text, "locale_ambiguous_numeric_date", FormatAmbiguous)
    else if f.iso.Some? then ExactDay(f.text, f.iso.value)
    else if f.exact.Some? then
      if f.exact.value.year.None? then Unanchored(f.text, DayPrecision, "missing_year", None)
      else ExactDay(f.text, Day(f.exact.value.year.value, f.exact.value.month, f.exact.value.day))
    else if f.month.Some? then Month(f.text, f.month.value, f.approximate)
    else if f.range.Some? then YearRange(f.text, f.range.value)
    else if f.ruDecade.Some? then Decade(f.text, f.ruDecade.value)
    else if f.kkDecade.Some? then Decade(f.text, f.kkDecade.value)
    else if f.age then Unanchored(f.text, UnknownPrecision, "birth_anchor_missing", Some(AtAge))
    else if f.year.Some? then Year(f)
    else if f.before then Unanchored(f.text, UnknownPrecision, "anchor_event_missing", Some(Before))
    else if f.after then Unanchored(f.text, UnknownPrecision, "anchor_event_missing", Some(After))
    else Unknown(f.text, "unsupported_temporal_expression", Unresolved)
  }

  // ---- exact days ----

  /** The full date the text gives, if the day branches are reached: ISO first, then day, month and year in words. */
  function WrittenDay(f: Found): Option<Day> {
    if f.text == "" || f.ambiguousNumeric then None
    else if f.iso.Some? then f.iso
    else if f.exact.Some? && f.exact.value.year.Some? then
      Some(Day(f.exact.value.year.value, f.exact.value.month, f.exact.value.day))
    else None
  }

  /**
   * A value of exact kind is printed exactly for a written day that exists, and reads back as that very day; a written
   * day that does not exist yields no date at all.
   */
  lemma ExactValuesReadBack(f: Found)
    requires f.Valid()
    ensures var r := Parse(f);
      && (r.date.Some? && r.date.value.kind == ExactDate <==> WrittenDay(f).Some? && RealDay(WrittenDay(f).value))
      && (r.date.Some? && r.date.value.kind == ExactDate ==>
            r.date.value.value.Some? && ParseIso(r.date.value.value.value) == WrittenDay(f) && r.issues == [])
      && (WrittenDay(f).Some? && !RealDay(WrittenDay(f).value) ==> r == Normalization(None, [ValueInvalid]))
  {
    if WrittenDay(f).Some? {
      IsoRoundTrip(WrittenDay(f).value);
    }
  }

  // ---- bounds ----

  /** The year lies in the decade, or in the part of it that the wording names. */
  ghost predicate InDecade(m: DecadeMatch, year: nat) {
    var base := match m.name
      case Sixties => 1960
      case Seventies => 1970
      case Eighties => 1980
      case Nineties => 1990
      case TwoThousands => 2000;
    match m.position
    case Some(Start) => base <= year <= base + 3
    case Some(Middle) => base + 3 <= year <= base + 6
    case Some(End) => base + 7 <= year <= base + 9
    case None => base <= year <= base + 9
  }

  /** The years and months an output with bounds speaks of, said about days rather than text. */
  ghost predicate Means(f: Found, d: Day)
    requires f.Valid()
  {
    if f.month.Some? then d.year == f.month.value.year && d.month == f.month.value.month
    else if f.range.Some? then f.range.value.0 <= d.year <= f.range.value.1
    else if f.ruDecade.Some? then InDecade(f.ruDecade.value, d.year)
    else if f.kkDecade.Some? then InDecade(f.kkDecade.value, d.year)
    else if f.year.Some? && f.before then d.year < f.year.value
    else if f.year.Some? && f.after then d.year > f.year.value
    else if f.year.Some? then f.year.value - 1 <= d.year <= f.year.value + 1
    else true
  }

  /** The printed day lies between the printed bounds, compared as text. */
  predicate WithinBounds(e: EventDate, d: Day)
    requires Printable(d)
  {
    && (e.lower.Some? ==> TextLe(e.lower.value, IsoDay(d)))
    && (e.upper.Some? ==> TextLe(IsoDay(d), e.upper.value))
  }

  lemma YearsAsText(first: nat, last: nat, d: Day)
    requires first <= 9999 && last <= 9999 && RealDay(d)
    ensures TextLe(IsoYear(first), IsoDay(d)) <==> first <= d.year
    ensures TextLe(IsoDay(d), EndOf(last)) <==> d.year <= last
  {
    YearBeforeDay(first, d);
    IsoOrder(d, Day(last, 12, 31));
  }

  lemma MonthAsText(m: MonthMatch, d: Day)
    requires 1 <= m.month <= 12 && m.year <= 9999 && RealDay(d)
    ensures && TextLe(IsoDay(Day(m.year, m.month, 1)), IsoDay(d))
            && TextLe(IsoDay(d), IsoDay(Day(m.year, m.month, LastDay(m.year, m.month))))
       <==> d.year == m.year && d.month == m.month
  {
    IsoOrder(Day(m.year, m.month, 1), d);
    IsoOrder(d, Day(m.year, m.month, LastDay(m.year, m.month)));
  }

  lemma MonthBounds(text: string, m: MonthMatch, d: Day)
    requires 1 <= m.month <= 12 && m.year <= 9999 && RealDay(d)
    ensures WithinBounds(Month(text, m, true).date.value, d) <==> d.year == m.year && d.month == m.month
  {
    MonthAsText(m, d);
  }

  lemma RangeBounds(text: string, r: (nat, nat), d: Day)
    requires r.0 <= r.1 <= 9999 && RealDay(d)
    ensures WithinBounds(YearRange(text, r).date.value, d) <==> r.0 <= d.year <= r.1
  {
    YearsAsText(r.0, r.1, d);
  }

  lemma DecadeBounds(text: string, m: DecadeMatch, d: Day)
    requires RealDay(d)
    ensures WithinBounds(Decade(text, m).date.value, d) <==> InDecade(m, d.year)
  {
    YearsAsText(DecadeYears(m).0, DecadeYears(m).1, d);
  }

  lemma YearBounds(f: Found, d: Day)
    requires f.Valid() && f.year.Some? && RealDay(d) && (f.before || f.after || f.approximate)
    ensures var y := f.year.value;
      WithinBounds(Year(f).date.value, d)
      <==> if f.before then d.year < y else if f.after then d.year > y else y - 1 <= d.year <= y + 1
  {
    YearsAsText(f.year.value + 1, f.year.value - 1, d);
    YearsAsText(f.year.value - 1, f.year.value + 1, d);
  }

  /** Text comparison with the bounds picks out exactly the real days the expression speaks of. */
  lemma BoundsMean(f: Found, d: Day)
    requires f.Valid() && RealDay(d)
    requires Parse(f).date.Some? && (Parse(f).date.value.lower.Some? || Parse(f).date.value.upper.Some?)
    ensures WithinBounds(Parse(f).date.value, d) <==> Means(f, d)
  {
    if f.month.Some? {
      MonthBounds(f.text, f.month.value, d);
    } else if f.range.Some? {
      RangeBounds(f.text, f.range.value, d);
    } else if f.ruDecade.Some? {
      DecadeBounds(f.text, f.ruDecade.value, d);
    } else if f.kkDecade.Some? {
      DecadeBounds(f.text, f.kkDecade.value, d);
    } else {
      YearBounds(f, d);
    }
  }

  /** The wording is left to the searches after the day branches. */
  predicate Undecided(f: Found) {
    f.text != "" && !DecidedBefore(f)
  }

  /** Nothing but a year was found that says when, and nothing that relates it to something else. */
  predicate OnlyYear(f: Found) {
    && Undecided(f) && f.month.None? && f.range.None? && f.ruDecade.None? && f.kkDecade.None? && !f.age
    && f.year.Some? && !f.before && !f.after
  }

  /** Four digits that read as the year. */
  ghost predicate ReadsYear(value: Option<string>, year: nat) {
    value.Some? && |value.value| == 4 && ReadNumber(value.value) == Some(year)
  }

  /** `YYYY-MM`. */
  ghost predicate ReadsMonth(value: Option<string>, m: MonthMatch) {
    && value.Some? && |value.value| == 7 && value.value[4] == '-'
    && ReadNumber(value.value[..4]) == Some(m.year) && ReadNumber(value.value[5..]) == Some(m.month)
  }

  /**
   * A year or a month is given as a value exactly when the text names one and nothing that comes before it in the
   * searches, and the value reads back as that year or month; approximate wording adds bounds, other wording none.
   */
  lemma YearsAndMonthsReadBack(f: Found)
    requires f.Valid()
    ensures var date := Parse(f).date;
      && (date.Some? && date.value.value.Some? && date.value.precision == YearPrecision <==> OnlyYear(f))
      && (date.Some? && date.value.value.Some? && date.value.precision == MonthPrecision <==>
            Undecided(f) && f.month.Some?)
      && (OnlyYear(f) ==> ReadsYear(date.value.value, f.year.value))
      && (Undecided(f) && f.month.Some? ==> ReadsMonth(date.value.value, f.month.value))
      && (OnlyYear(f) || (Undecided(f) && f.month.Some?) ==>
            && Parse(f).issues == [] && date.value.original == f.text && date.value.approximate == f.approximate
            && date.value.lower.Some? == date.value.upper.Some? == f.approximate
            && date.value.kind == if f.approximate then Approximate else if f.month.Some? then MonthYear else YearKind)
  {
    if OnlyYear(f) {
      Powers();
      ReadsPadded(f.year.value, 4);
    }
    if Undecided(f) && f.month.Some? {
      PrintedMonth(f.month.value);
    }
  }

  lemma PrintedMonth(m: MonthMatch)
    requires m.year <= 9999 && m.month <= 12
    ensures ReadsMonth(Some(IsoMonth(m.year, m.month)), m)
  {
    Powers();
    var s := IsoMonth(m.year, m.month);
    assert s[..4] == Padded(m.year, 4) && s[5..] == Padded(m.month, 2);
    ReadsPadded(m.year, 4);
    ReadsPadded(m.month, 2);
  }

  /** The bounds of an approximate month are its first and last day; they are real days unless the year is 0. */
  lemma MonthBoundsAreItsDays(m: MonthMatch)
    requires 1 <= m.month <= 12 && m.year <= 9999
    ensures var last := LastDay(m.year, m.month);
      && (RealDay(Day(m.year, m.month, 1)) && RealDay(Day(m.year, m.month, last)) <==> m.year >= 1)
      && !RealDay(Day(m.year, m.month, last + 1))
      && (m.year >= 1 ==> ParseIso(IsoDay(Day(m.year, m.month, last))) == Some(Day(m.year, m.month, last)))
  {
    IsoRoundTrip(Day(m.year, m.month, LastDay(m.year, m.month)));
  }

  // ---- the shape the domain model demands ----

  /** `EventDate.validate_temporal_shape`: a date that breaks it cannot be constructed at all. */
  predicate GoodShape(e: EventDate) {
    && (e.lower.Some? != e.upper.Some? ==>
          && e.kind == Relative
          && ((e.relation == Some(Before) && e.lower.None?) || (e.relation == Some(After) && e.upper.None?)))
    && (e.lower.Some? && e.upper.Some? ==> TextLe(e.lower.value, e.upper.value))
    && (e.kind == Relative ==> e.value.None?)
  }

  lemma YearsInOrder(first: nat, last: nat)
    requires first <= last <= 9999
    ensures TextLe(IsoYear(first), EndOf(last))
  {
    YearBeforeDay(first, Day(last, 12, 31));
  }

  /**
   * The normaliser never builds a date that the model refuses: in particular no lower bound exceeds its upper bound.
   */
  lemma ParseHasGoodShape(f: Found)
    requires f.Valid() && Parse(f).date.Some?
    ensures GoodShape(Parse(f).date.value)
  {
    if f.month.Some? {
      MonthHasGoodShape(f.text, f.month.value, f.approximate);
    } else if f.range.Some? {
      if f.range.value.0 <= f.range.value.1 {
        YearsInOrder(f.range.value.0, f.range.value.1);
      }
    } else if f.ruDecade.Some? {
      DecadeHasGoodShape(f.text, f.ruDecade.value);
    } else if f.kkDecade.Some? {
      DecadeHasGoodShape(f.text, f.kkDecade.value);
    } else if f.year.Some? {
      YearHasGoodShape(f);
    }
  }

  lemma MonthHasGoodShape(text: string, m: MonthMatch, approximate: bool)
    requires m.year <= 9999 && 1 <= m.month <= 12
    ensures GoodShape(Month(text, m, approximate).date.value)
  {
    IsoOrder(Day(m.year, m.month, 1), Day(m.year, m.month, LastDay(m.year, m.month)));
  }

  lemma DecadeHasGoodShape(text: string, d: DecadeMatch)
    ensures GoodShape(Decade(text, d).date.value)
  {
    YearsInOrder(DecadeYears(d).0, DecadeYears(d).1);
  }

  lemma YearHasGoodShape(f: Found)
    requires f.Valid() && f.year.Some?
    ensures GoodShape(Year(f).date.value)
  {
    YearsInOrder(f.year.value - 1, f.year.value + 1);
  }

  // ---- approximate wording ----

  /** `date_is_silently_exactified`, for a text whose approximate wording is known. */
  predicate SilentlyExactified(e: EventDate, approximate: bool) {
    approximate && (e.kind == ExactDate || e.precision == DayPrecision || !e.approximate)
  }

  /** The text is decided by a day or by an unreadable number format, before any approximate wording is looked at. */
  predicate DecidedBefore(f: Found) {
    f.ambiguousNumeric || f.iso.Some? || f.exact.Some?
  }

  /** The branches that keep an approximate wording: a month, a decade, or a year that nothing turns into a relation. */
  predicate KeepsApproximation(f: Found) {
    && !DecidedBefore(f)
    && (f.month.Some? ||
        (f.range.None? && (f.ruDecade.Some? || f.kkDecade.Some? || (!f.age && f.year.Some? && !f.before && !f.after))))
  }

  /**
   * "About" is not always honoured. A date made from approximate wording passes the guard against silent exactness
   * exactly in the month, decade and plain year branches; the day branches and ranges come first and drop it.
   */
  lemma ApproximationKeptExactly(f: Found)
    requires f.Valid() && f.approximate && Parse(f).date.Some?
    ensures !SilentlyExactified(Parse(f).date.value, f.approximate) <==> KeepsApproximation(f)
  {
  }

  /** "About 5 May 1950" becomes the exact day 1950-05-05. */
  lemma AboutADayBecomesExact(f: Found)
    requires f.text != "" && !f.ambiguousNumeric && f.iso.None? && f.approximate
    requires f.Valid() && f.exact == Some(DayMatch(5, 5, Some(1950)))
    ensures Parse(f).date.Some? && ParseIso(Parse(f).date.value.value.value) == Some(Day(1950, 5, 5))
    ensures SilentlyExactified(Parse(f).date.value, true)
  {
    ExactValuesReadBack(f);
  }

  // ---- against the evidence ----

  /** What a model proposed for a date; `supported` says whether its wording occurs in the evidence. */
  datatype Proposal = Proposal(found: Found, supported: bool, kind: Kind, precision: Precision, value: Option<string>,
                               anchored: bool)

  function Overstated(p: Proposal, e: EventDate): seq<Code> {
    (if e.approximate && (p.kind == ExactDate || p.precision == DayPrecision) then [PrecisionOverstated] else []) +
    (if e.kind == Relative && p.value.Some? && p.value.value != "" && !p.anchored then [PrecisionOverstated] else [])
  }

  /** `normalize_event_date` */
  function NormalizeDate(p: Proposal): Normalization
    requires p.found.Valid()
  {
    if p.found.text == "" || !p.supported then Normalization(None, [EvidenceUnsupported])
    else
      var parsed := Parse(p.found);
      if parsed.date.None? then parsed
      else Normalization(parsed.date, Dedup(parsed.issues + Overstated(p, parsed.date.value)))
  }

  /** Only the wording decides the date: what the model claimed about it leaves no trace in it. */
  lemma ClaimsNeverChangeTheDate(p: Proposal, q: Proposal)
    requires p.found.Valid() && q.found == p.found && q.supported == p.supported
    ensures NormalizeDate(p).date == NormalizeDate(q).date
    ensures NormalizeDate(p).date.Some? ==> GoodShape(NormalizeDate(p).date.value)
  {
    if Parse(p.found).date.Some? {
      ParseHasGoodShape(p.found);
    }
  }

  /** The wording is read as approximate: a decade, or a month or year said to be approximate. */
  predicate ReadsApproximate(f: Found) {
    KeepsApproximation(f) && (f.approximate || (f.month.None? && (f.ruDecade.Some? || f.kkDecade.Some?)))
  }

  /** The wording leaves the date to an anchor: a day without a year, an age, or "before" or "after" something. */
  predicate ReadsRelative(f: Found) {
    && !f.ambiguousNumeric && f.iso.None?
    && if f.exact.Some? then f.exact.value.year.None?
       else && f.month.None? && f.range.None? && f.ruDecade.None? && f.kkDecade.None?
            && (f.age || f.before || f.after)
  }

  /**
   * Claiming too much is reported exactly when it happens: an exact day claimed of approximate wording, or a value
   * given for a date whose anchor is not known. Nothing else is lost, and no issue is reported twice.
   */
  lemma OverstatementIsReported(p: Proposal)
    requires p.found.Valid() && p.found.text != "" && p.supported && Parse(p.found).date.Some?
    ensures Distinct(NormalizeDate(p).issues)
    ensures PrecisionOverstated in NormalizeDate(p).issues <==>
            || (ReadsApproximate(p.found) && (p.kind == ExactDate || p.precision == DayPrecision))
            || (ReadsRelative(p.found) && p.value.Some? && p.value.value != "" && !p.anchored)
    ensures forall c :: c in Parse(p.found).issues ==> c in NormalizeDate(p).issues
  {
    MembersOfDedup(Parse(p.found).issues + Overstated(p, Parse(p.found).date.value));
    ParseNeverOverstates(p.found);
    HowTheWordingReads(p.found);
  }

  lemma HowTheWordingReads(f: Found)
    requires f.Valid() && f.text != "" && Parse(f).date.Some?
    ensures Parse(f).date.value.approximate <==> ReadsApproximate(f)
    ensures Parse(f).date.value.kind == Relative <==> ReadsRelative(f)
  {
  }

  /** The searches after the day branches found a range of years first. */
  predicate RangeFirst(f: Found) {
    Undecided(f) && f.month.None? && f.range.Some?
  }

  /** No search found anything. */
  predicate NothingFound(f: Found) {
    && Undecided(f) && f.month.None? && f.range.None? && f.ruDecade.None? && f.kkDecade.None?
    && !f.age && f.year.None? && !f.before && !f.after
  }

  /** Each issue of the normaliser is raised exactly when there is reason for it, and never together with another. */
  lemma IssuesExactly(f: Found)
    requires f.Valid()
    ensures var r := Parse(f);
      && |r.issues| <= 1
      && (ValueInvalid in r.issues <==> f.text == "" || (WrittenDay(f).Some? && !RealDay(WrittenDay(f).value)))
      && (FormatAmbiguous in r.issues <==> f.text != "" && f.ambiguousNumeric)
      && (AnchorMissing in r.issues <==> f.text != "" && ReadsRelative(f))
      && (RangeInvalid in r.issues <==> RangeFirst(f) && f.range.value.0 > f.range.value.1)
      && (Unresolved in r.issues <==> NothingFound(f))
      && (r.date.None? <==> ValueInvalid in r.issues || RangeInvalid in r.issues)
  {
  }

  /** What a relative date is relative to: an age, or the time before or after something. */
  lemma RelationsExactly(f: Found)
    requires f.Valid() && f.text != "" && ReadsRelative(f)
    ensures var date := Parse(f).date;
      && date.Some? && date.value.value.None?
      && (date.value.relation == None <==> f.exact.Some?)
      && (date.value.relation == Some(AtAge) <==> f.exact.None? && f.age)
      && (date.value.relation == Some(Before) <==> f.exact.None? && !f.age && f.before)
      && (date.value.relation == Some(After) <==> f.exact.None? && !f.age && !f.before && f.after)
      && (date.value.upper.Some? <==> f.exact.None? && !f.age && f.before && f.year.Some?)
      && (date.value.lower.Some? <==> f.exact.None? && !f.age && !f.before && f.after && f.year.Some?)
  {
  }

  lemma ParseNeverOverstates(f: Found)
    requires f.Valid()
    ensures PrecisionOverstated !in Parse(f).issues
  {
  }

  lemma MembersOfDedup(s: seq<Code>)
    ensures forall c :: c in Dedup(s) <==> c in s
  {
    assert forall c :: c in Dedup(s) <==> c in ToSet(Dedup(s));
    assert forall c :: c in s <==> c in ToSet(s);
  }
}
