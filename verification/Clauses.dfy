/**
 * Splitting a text into clauses (`claim_semantics.py`, `split_clauses`). The boundaries the regular expression finds
 * are an input; they are not empty, in order, and do not overlap.
 */
module Clauses {
  import opened Common
  import opened Characters
  import opened TextUnits

  datatype Clause = Clause(text: string, start: nat, end: nat)

  /** What `finditer` yields. */
  ghost predicate Matches(bounds: seq<Span>, length: nat) {
    && (forall i :: 0 <= i < |bounds| ==> bounds[i].lo < bounds[i].hi <= length)
    && (forall i, j :: 0 <= i < j < |bounds| ==> bounds[i].hi <= bounds[j].lo)
  }

  predicate InBoundary(bounds: seq<Span>, k: nat) {
    exists i :: 0 <= i < |bounds| && bounds[i].lo <= k < bounds[i].hi
  }

  /** The text with its boundaries blanked out. */
  ghost function Masked(text: string, bounds: seq<Span>): (m: string)
    ensures |m| == |text|
    ensures forall k :: 0 <= k < |text| ==> m[k] == if InBoundary(bounds, k) then ' ' else text[k]
  {
    seq(|text|, k requires 0 <= k < |text| => if InBoundary(bounds, k) then ' ' else text[k])
  }

  /** No character of the span belongs to a boundary. */
  ghost predicate Clear(bounds: seq<Span>, s: Span) {
    forall k :: s.lo <= k < s.hi ==> !InBoundary(bounds, k)
  }

  ghost predicate AllClear(bounds: seq<Span>, spans: seq<Span>) {
    forall s :: s in spans ==> Clear(bounds, s)
  }

  /** Add the trimmed stretch from `cursor` to `stop`, which no boundary touches. */
  method AppendClause(text: string, ghost bounds: seq<Span>, spans: seq<Span>, cursor: nat,
                      stop: nat) returns (r: seq<Span>)
    requires cursor <= stop <= |text| && Clear(bounds, Span(cursor, stop))
    requires Tiles(Masked(text, bounds), spans, 0, cursor) && AllClear(bounds, spans)
    ensures Tiles(Masked(text, bounds), r, 0, stop) && AllClear(bounds, r)
    ensures r == spans || (|r| == |spans| + 1 && r[..|spans|] == spans && cursor <= r[|spans|].lo)
  {
    ghost var masked := Masked(text, bounds);
    var trimmed := TrimmedSpan(text, cursor, stop);
    if trimmed.Some? {
      var s := trimmed.value;
      WidenRight(masked, spans, 0, cursor, s.lo);
      TilesSnoc(masked, spans, s, 0, stop);
      r := spans + [s];
    } else {
      WidenRight(masked, spans, 0, cursor, stop);
      r := spans;
    }
  }

  lemma GapIsClear(bounds: seq<Span>, length: nat, i: nat)
    requires Matches(bounds, length) && i <= |bounds|
    ensures Clear(bounds, Span(if i == 0 then 0 else bounds[i - 1].hi, if i == |bounds| then length else bounds[i].lo))
  {
    var lo, hi := if i == 0 then 0 else bounds[i - 1].hi, if i == |bounds| then length else bounds[i].lo;
    forall k: nat | lo <= k < hi ensures !InBoundary(bounds, k) {
      forall j | 0 <= j < |bounds| ensures !(bounds[j].lo <= k < bounds[j].hi) {
        if j < i {
          assert bounds[j].hi <= lo;
        } else {
          assert hi <= bounds[j].lo;
        }
      }
    }
  }

  /** Where the loop of `split_clauses` stands before boundary `i`. */
  ghost predicate SplitSoFar(text: string, bounds: seq<Span>, spans: seq<Span>, cursor: nat, i: nat)
    requires i <= |bounds|
  {
    && cursor == (if i == 0 then 0 else bounds[i - 1].hi) <= |text|
    && Tiles(Masked(text, bounds), spans, 0, cursor) && AllClear(bounds, spans)
    && Parted(bounds, spans) && (i == 0 ==> spans == [])
  }

  /** A boundary lies between the two spans. */
  ghost predicate BoundaryBetween(bounds: seq<Span>, u: Span, v: Span) {
    exists i :: 0 <= i < |bounds| && u.hi <= bounds[i].lo && bounds[i].hi <= v.lo
  }

  /** Only boundaries part one clause from the next. */
  ghost predicate Parted(bounds: seq<Span>, spans: seq<Span>) {
    forall k :: 0 < k < |spans| ==> BoundaryBetween(bounds, spans[k - 1], spans[k])
  }

  /** A clause after boundary `i - 1` is parted from the clauses before by that boundary. */
  lemma PartedOn(text: string, bounds: seq<Span>, spans: seq<Span>, more: seq<Span>, cursor: nat, i: nat)
    requires Matches(bounds, |text|) && i <= |bounds| && SplitSoFar(text, bounds, spans, cursor, i)
    requires more == spans || (|more| == |spans| + 1 && more[..|spans|] == spans && cursor <= more[|spans|].lo)
    ensures Parted(bounds, more)
  {
    forall k | 0 < k < |more| ensures BoundaryBetween(bounds, more[k - 1], more[k]) {
      if k < |spans| {
        assert more[k - 1] == spans[k - 1] && more[k] == spans[k];
      } else {
        var u, b := spans[|spans| - 1], bounds[i - 1];
        assert u == more[k - 1] && u in spans && Clear(bounds, u);
        assert Trimmed(Masked(text, bounds), u, 0, cursor);
        assert !InBoundary(bounds, u.hi - 1);
        assert u.hi - 1 < bounds[i - 1].hi;
        assert u.hi <= bounds[i - 1].lo;
      }
    }
  }

  /** The loop of `split_clauses`; when nothing visible is left outside the boundaries it finds no clause. */
  method ClauseSpans(text: string, bounds: seq<Span>) returns (spans: seq<Span>)
    requires Matches(bounds, |text|)
    ensures Tiles(Masked(text, bounds), spans, 0, |text|) && AllClear(bounds, spans) && Parted(bounds, spans)
  {
    spans := [];
    var cursor: nat := 0;
    for i := 0 to |bounds|
      invariant SplitSoFar(text, bounds, spans, cursor, i)
    {
      spans, cursor := NextClause(text, bounds, spans, cursor, i);
    }
    if cursor < |text| {
      GapIsClear(bounds, |text|, |bounds|);
      ghost var before := spans;
      spans := AppendClause(text, bounds, spans, cursor, |text|);
      PartedOn(text, bounds, before, spans, cursor, |bounds|);
    }
  }

  /** One turn of the loop. */
  method NextClause(text: string, bounds: seq<Span>, spans: seq<Span>, cursor: nat, i: nat)
    returns (more: seq<Span>, next: nat)
    requires Matches(bounds, |text|) && i < |bounds| && SplitSoFar(text, bounds, spans, cursor, i)
    ensures SplitSoFar(text, bounds, more, next, i + 1)
  {
    more := spans;
    GapIsClear(bounds, |text|, i);
    if bounds[i].lo > cursor {
      more := AppendClause(text, bounds, more, cursor, bounds[i].lo);
    }
    PartedOn(text, bounds, spans, more, cursor, i);
    WidenRight(Masked(text, bounds), more, 0, bounds[i].lo, bounds[i].hi);
    next := bounds[i].hi;
  }

  /** Every visible character is in exactly one clause if it is outside the boundaries, and in none otherwise. */
  lemma ClausesMeaning(text: string, bounds: seq<Span>, spans: seq<Span>, k: nat)
    requires Tiles(Masked(text, bounds), spans, 0, |text|) && AllClear(bounds, spans)
    requires k < |text| && !IsSpace(text[k])
    ensures InExactlyOne(spans, k) <==> !InBoundary(bounds, k)
    ensures InBoundary(bounds, k) ==> forall i :: 0 <= i < |spans| ==> !Covers(spans[i], k)
  {
    TilesMeaning(Masked(text, bounds), spans, 0, |text|);
    if InBoundary(bounds, k) {
      forall i | 0 <= i < |spans| ensures !Covers(spans[i], k) {
        assert Clear(bounds, spans[i]);
      }
    }
  }

  function ClauseAt(text: string, s: Span): Clause
    requires s.lo <= s.hi <= |text|
  {
    Clause(text[s.lo..s.hi], s.lo, s.hi)
  }

  /** Clauses are the spans with their exact text. */
  ghost predicate ClausesOf(text: string, spans: seq<Span>, clauses: seq<Clause>) {
    && |clauses| == |spans|
    && forall i :: 0 <= i < |spans| ==> spans[i].lo <= spans[i].hi <= |text| && clauses[i] == ClauseAt(text, spans[i])
  }

  /** `split_clauses`: a text without any clause is a single clause, whatever it contains. */
  method SplitClauses(text: string, bounds: seq<Span>) returns (clauses: seq<Clause>, ghost spans: seq<Span>)
    requires Matches(bounds, |text|)
    ensures ClausesOf(text, spans, clauses) && clauses != []
    ensures Blank(Masked(text, bounds), 0, |text|) ==> spans == [Span(0, |text|)]
    ensures !Blank(Masked(text, bounds), 0, |text|) ==>
              Tiles(Masked(text, bounds), spans, 0, |text|) && AllClear(bounds, spans) && Parted(bounds, spans)
  {
    var found := ClauseSpans(text, bounds);
    TilesEmpty(Masked(text, bounds), found, 0, |text|);
    if found == [] {
      clauses, spans := [Clause(text, 0, |text|)], [Span(0, |text|)];
      assert text[0..|text|] == text;
      return;
    }
    spans := found;
    TilesOrdered(Masked(text, bounds), found, 0, |text|);
    clauses := seq(|found|,
                   i requires 0 <= i < |found| && found[i].lo <= found[i].hi <= |text| => ClauseAt(text, found[i]));
  }
}
