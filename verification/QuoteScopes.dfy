/**
 * Quote scopes (`coreference_boundaries.py`). A scanner with a stack of expected closing marks gives every
 * position of a text a scope; a grammar of properly quoted text, written without a stack, says what it means to
 * be outside all quotations.
 */
module QuoteScopes {
  import opened Common
  import opened Characters

  const GUILLEMET_OPEN := '\U{00AB}'
  const GUILLEMET_CLOSE := '\U{00BB}'
  const DOUBLE_OPEN := '\U{201C}'
  const DOUBLE_CLOSE := '\U{201D}'
  const LOW_OPEN := '\U{201E}'
  const STRAIGHT := '"'

  datatype ScopeId = Outside | InQuote(n: nat) | MalformedAt(index: nat) | MixedScope

  datatype QuoteScope = QuoteScope(id: ScopeId, malformed: bool)

  /** `_OPEN_TO_CLOSE` */
  function ClosingOf(c: char): Option<char> {
    if c == GUILLEMET_OPEN then Some(GUILLEMET_CLOSE)
    else if c == DOUBLE_OPEN then Some(DOUBLE_CLOSE)
    else if c == LOW_OPEN then Some(DOUBLE_OPEN)
    else None
  }

  predicate IsClosing(c: char) {
    c == GUILLEMET_CLOSE || c == DOUBLE_CLOSE || c == DOUBLE_OPEN
  }

  /** The mark that closes a quotation, none after a stray closing mark, and the scope it stands for. */
  datatype Frame = Frame(close: Option<char>, id: ScopeId)

  datatype Scanner = Scanner(stack: seq<Frame>, nextId: nat, malformed: bool)

  const START := Scanner([], 1, false)

  predicate TopCloses(stack: seq<Frame>, c: char) {
    stack != [] && stack[|stack| - 1].close == Some(c)
  }

  /** One turn of the loop, for the character `c` at `index`. */
  function Step(s: Scanner, c: char, index: nat): Scanner {
    if ClosingOf(c).Some? then
      s.(stack := s.stack + [Frame(ClosingOf(c), InQuote(s.nextId))], nextId := s.nextId + 1)
    else if c == STRAIGHT then
      if TopCloses(s.stack, c) then s.(stack := s.stack[..|s.stack| - 1])
      else s.(stack := s.stack + [Frame(Some(c), InQuote(s.nextId))], nextId := s.nextId + 1)
    else if IsClosing(c) then
      if TopCloses(s.stack, c) then s.(stack := s.stack[..|s.stack| - 1])
      else s.(stack := s.stack + [Frame(None, MalformedAt(index))], malformed := true)
    else s
  }

  /** The scanner after reading `t` from state `s`, the first character having index `at`. */
  function ScanFrom(s: Scanner, t: string, at: nat): Scanner {
    if t == [] then s
    else Step(ScanFrom(s, t[..|t| - 1], at), t[|t| - 1], at + |t| - 1)
  }

  function Scan(t: string): Scanner {
    ScanFrom(START, t, 0)
  }

  function ScopeOf(s: Scanner): QuoteScope {
    QuoteScope(if s.stack == [] then Outside else s.stack[|s.stack| - 1].id, s.malformed)
  }

  function Bounded(position: int, length: nat): nat {
    if position < 0 then 0 else if position > length then length else position
  }

  function ScopeAt(text: string, position: int): QuoteScope {
    ScopeOf(Scan(text[..Bounded(position, |text|)]))
  }

  /** `quote_scope_at`. The position is outside exactly when the text before it is properly quoted. */
  method QuoteScopeAt(text: string, position: int) returns (scope: QuoteScope)
    ensures scope == ScopeAt(text, position)
    ensures scope.id == Outside <==> ProperlyQuoted(text[..Bounded(position, |text|)])
    ensures scope.id == Outside ==> !scope.malformed
  {
    var bounded := Bounded(position, |text|);
    var stack: seq<Frame> := [];
    var nextId, malformed := 1, false;
    for index := 0 to bounded
      invariant Scanner(stack, nextId, malformed) == Scan(text[..index])
    {
      var c := text[index];
      assert text[..index + 1][..index] == text[..index];
      if ClosingOf(c).Some? {
        stack := stack + [Frame(ClosingOf(c), InQuote(nextId))];
        nextId := nextId + 1;
        continue;
      }
      if c == STRAIGHT {
        if stack != [] && stack[|stack| - 1].close == Some(c) {
          stack := stack[..|stack| - 1];
        } else {
          stack := stack + [Frame(Some(c), InQuote(nextId))];
          nextId := nextId + 1;
        }
        continue;
      }
      if IsClosing(c) {
        if stack != [] && stack[|stack| - 1].close == Some(c) {
          stack := stack[..|stack| - 1];
        } else {
          malformed := true;
          stack := stack + [Frame(None, MalformedAt(index))];
        }
      }
    }
    OutsideMeansProperlyQuoted(text[..bounded]);
    scope := QuoteScope(if stack == [] then Outside else stack[|stack| - 1].id, malformed);
  }

  // ---- what properly quoted text is ----

  /** Text as plain characters and complete quotations; `open` is the opening mark. */
  datatype Doc = Empty | Plain(front: Doc, c: char) | Quoted(front: Doc, open: char, inner: Doc)

  /** The marks that can open a complete quotation; `„` is not among them. */
  predicate Opens(c: char) {
    c == GUILLEMET_OPEN || c == DOUBLE_OPEN || c == STRAIGHT
  }

  function CloseFor(open: char): char {
    if open == GUILLEMET_OPEN then GUILLEMET_CLOSE else if open == DOUBLE_OPEN then DOUBLE_CLOSE else STRAIGHT
  }

  predicate IsMark(c: char) {
    ClosingOf(c).Some? || c == STRAIGHT || IsClosing(c)
  }

  function Text(d: Doc): string {
    match d
    case Empty => ""
    case Plain(front, c) => Text(front) + [c]
    case Quoted(front, open, inner) => Text(front) + [open] + Text(inner) + [CloseFor(open)]
  }

  /** Quotations are complete and nested; straight quotes do not nest directly in straight quotes. */
  predicate WellQuoted(d: Doc, enclosing: Option<char>) {
    match d
    case Empty => true
    case Plain(front, c) => WellQuoted(front, enclosing) && !IsMark(c)
    case Quoted(front, open, inner) =>
      && WellQuoted(front, enclosing)
      && Opens(open)
      && !(open == STRAIGHT && enclosing == Some(STRAIGHT))
      && WellQuoted(inner, Some(open))
  }

  ghost predicate ProperlyQuoted(t: string) {
    exists d :: WellQuoted(d, None) && Text(d) == t
  }

  lemma LastOfConcat(a: string, b: string)
    requires b != []
    ensures (a + b)[..|a + b| - 1] == a + b[..|b| - 1] && (a + b)[|a + b| - 1] == b[|b| - 1]
  {
  }

  lemma {:induction false} ScanConcat(s: Scanner, a: string, b: string, at: nat)
    ensures ScanFrom(s, a + b, at) == ScanFrom(ScanFrom(s, a, at), b, at + |a|)
  {
    if b == [] {
      assert a + b == a;
    } else {
      LastOfConcat(a, b);
      ScanConcat(s, a, b[..|b| - 1], at);
    }
  }

  lemma ScanSnoc(s: Scanner, a: string, c: char, at: nat)
    ensures ScanFrom(s, a + [c], at) == Step(ScanFrom(s, a, at), c, at + |a|)
  {
    assert (a + [c])[..|a|] == a;
  }

  lemma ScanOne(s: Scanner, c: char, at: nat)
    ensures ScanFrom(s, [c], at) == Step(s, c, at)
  {
    assert [c][..0] == [];
    assert ScanFrom(s, [c][..0], at) == s;
  }

  lemma ScanStep(front: string, c: char)
    ensures Scan(front + [c]) == Step(Scan(front), c, |front|)
  {
    assert (front + [c])[..|front|] == front;
  }

  /** A step keeps frames in place or adds one on top with a new id. */
  lemma StepFrames(s: Scanner, c: char, index: nat)
    ensures var r := Step(s, c, index);
      forall i :: 0 <= i < |r.stack| ==>
        || (i < |s.stack| && r.stack[i] == s.stack[i])
        || (i == |s.stack| && r.stack[i].id == InQuote(s.nextId) && r.nextId == s.nextId + 1)
        || (i == |s.stack| && r.stack[i].id == MalformedAt(index))
    ensures s.nextId <= Step(s, c, index).nextId
  {
  }

  /** What surrounds a document and what the top of the stack expects agree. */
  predicate Encloses(stack: seq<Frame>, enclosing: Option<char>) {
    match enclosing
    case None => stack == []
    case Some(open) => Opens(open) && TopCloses(stack, CloseFor(open))
  }

  /** Reading a well quoted document leaves the stack and the malformed flag as they were. */
  lemma {:induction false} DocIsTransparent(s: Scanner, d: Doc, enclosing: Option<char>, at: nat)
    requires WellQuoted(d, enclosing) && Encloses(s.stack, enclosing)
    ensures Transparent(s, Text(d), at)
    decreases d
  {
    match d
    case Empty =>
    case Plain(front, c) =>
      DocIsTransparent(s, front, enclosing, at);
      PlainIsTransparent(s, Text(front), c, at);
    case Quoted(front, open, inner) =>
      DocIsTransparent(s, front, enclosing, at);
      var a := Text(front);
      var s1 := ScanFrom(s, a, at);
      var s2 := Step(s1, open, at + |a|);
      OpenPushes(s1, open, enclosing, at + |a|);
      DocIsTransparent(s2, inner, Some(open), at + |a| + 1);
      QuotationIsTransparent(s, s1, s2, a, open, Text(inner), at);
  }

  /** Reading `t` leaves the stack and the malformed flag as they were. */
  ghost predicate Transparent(s: Scanner, t: string, at: nat) {
    var r := ScanFrom(s, t, at);
    r.stack == s.stack && r.malformed == s.malformed
  }

  lemma PlainIsTransparent(s: Scanner, a: string, c: char, at: nat)
    requires !IsMark(c)
    ensures ScanFrom(s, a + [c], at) == ScanFrom(s, a, at)
  {
    assert (a + [c])[..|a|] == a;
  }

  /** Transparent text in front and transparent text inside make a transparent quotation. */
  lemma QuotationIsTransparent(s: Scanner, s1: Scanner, s2: Scanner, a: string, open: char, b: string, at: nat)
    requires Opens(open) && s1 == ScanFrom(s, a, at) && s2 == Step(s1, open, at + |a|)
    requires Transparent(s, a, at) && Transparent(s2, b, at + |a| + 1)
    requires s2 == s1.(stack := s1.stack + [Frame(Some(CloseFor(open)), InQuote(s1.nextId))], nextId := s1.nextId + 1)
    ensures Transparent(s, a + [open] + b + [CloseFor(open)], at)
  {
    BracketScan(s, a, open, b, CloseFor(open), at);
    ClosePops(ScanFrom(s2, b, at + |a| + 1), open, at + |a| + 1 + |b|);
  }

  lemma OpenPushes(s: Scanner, open: char, enclosing: Option<char>, at: nat)
    requires Opens(open) && Encloses(s.stack, enclosing) && !(open == STRAIGHT && enclosing == Some(STRAIGHT))
    ensures Step(s, open, at) ==
            s.(stack := s.stack + [Frame(Some(CloseFor(open)), InQuote(s.nextId))], nextId := s.nextId + 1)
  {
  }

  lemma ClosePops(s: Scanner, open: char, at: nat)
    requires Opens(open) && TopCloses(s.stack, CloseFor(open))
    ensures Step(s, CloseFor(open), at) == s.(stack := s.stack[..|s.stack| - 1])
  {
  }

  /** Reading a mark, a text and a closing mark after `a`. */
  lemma BracketScan(s: Scanner, a: string, open: char, b: string, close: char, at: nat)
    ensures ScanFrom(s, a + [open] + b + [close], at) ==
            Step(ScanFrom(Step(ScanFrom(s, a, at), open, at + |a|), b, at + |a| + 1), close, at + |a| + 1 + |b|)
  {
    var t1 := a + [open];
    ScanSnoc(s, a, open, at);
    ScanConcat(s, t1, b, at);
    ScanSnoc(s, t1 + b, close, at);
  }

  // ---- dead frames ----

  /** No character ever pops this frame: it has no closing mark, or it waits for `“`, which always opens. */
  predicate Dead(f: Frame) {
    f.close == None || f.close == Some(DOUBLE_OPEN)
  }

  /** A dead frame keeps its place for ever. */
  lemma {:induction false} DeadFrameStays(s: Scanner, t: string, at: nat, i: nat)
    requires i < |s.stack| && Dead(s.stack[i])
    ensures var r := ScanFrom(s, t, at); i < |r.stack| && r.stack[i] == s.stack[i]
  {
    if t != [] {
      DeadFrameStays(s, t[..|t| - 1], at, i);
    }
  }

  /** Malformed text has a dead frame. */
  lemma {:induction false} MalformedIsDead(t: string)
    requires Scan(t).malformed
    ensures exists i :: 0 <= i < |Scan(t).stack| && Dead(Scan(t).stack[i])
  {
    var front, last := t[..|t| - 1], t[|t| - 1];
    var before, after := Scan(front), Scan(t);
    if before.malformed {
      MalformedIsDead(front);
      var i :| 0 <= i < |before.stack| && Dead(before.stack[i]);
      ScanOne(before, last, |front|);
      DeadFrameStays(before, [last], |front|, i);
      assert Dead(after.stack[i]);
    } else {
      assert Dead(after.stack[|after.stack| - 1]);
    }
  }

  /** After a stray closing mark or any `„`, no later position is outside. */
  lemma NeverOutsideAgain(t: string, k: nat, p: nat)
    requires k < p <= |t|
    requires t[k] == LOW_OPEN || (t[k] != STRAIGHT && ClosingOf(t[k]).None? && IsClosing(t[k])
                                  && !TopCloses(Scan(t[..k]).stack, t[k]))
    ensures ScopeAt(t, p).id != Outside
  {
    var before := Scan(t[..k]);
    var after := Step(before, t[k], k);
    BadMarkIsDead(before, t[k], k);
    ReadOn(t, k, p);
    DeadFrameStays(after, t[k + 1..p], k + 1, |before.stack|);
    ScopeIdsAreNotOutside(t[..p]);
  }

  lemma BadMarkIsDead(s: Scanner, c: char, index: nat)
    requires c == LOW_OPEN || (c != STRAIGHT && ClosingOf(c).None? && IsClosing(c) && !TopCloses(s.stack, c))
    ensures var after := Step(s, c, index); |after.stack| == |s.stack| + 1 && Dead(after.stack[|s.stack|])
  {
  }

  /** Reading up to `p` is reading up to `k`, then the character there, then the rest. */
  lemma ReadOn(t: string, k: nat, p: nat)
    requires k < p <= |t|
    ensures Scan(t[..p]) == ScanFrom(Step(Scan(t[..k]), t[k], k), t[k + 1..p], k + 1)
  {
    assert t[..k + 1] == t[..k] + [t[k]];
    ScanStep(t[..k], t[k]);
    assert t[..p] == t[..k + 1] + t[k + 1..p];
    ScanConcat(START, t[..k + 1], t[k + 1..p], 0);
  }

  /** Frames stand for quotations, so only an empty stack reads as outside. */
  lemma {:induction false} ScopeIdsAreNotOutside(t: string)
    ensures forall i :: 0 <= i < |Scan(t).stack| ==> Scan(t).stack[i].id.InQuote? || Scan(t).stack[i].id.MalformedAt?
  {
    if t != [] {
      var front, c := t[..|t| - 1], t[|t| - 1];
      assert t == front + [c];
      ScopeIdsAreNotOutside(front);
      ScanStep(front, c);
      StepFrames(Scan(front), c, |front|);
    }
  }

  // ---- reading the document back ----

  /** A document whose last quotations are still open. */
  datatype Open = Base(doc: Doc) | Inside(outer: Open, open: char, doc: Doc)

  function OpenText(o: Open): string {
    match o
    case Base(doc) => Text(doc)
    case Inside(outer, open, doc) => OpenText(outer) + [open] + Text(doc)
  }

  function Innermost(o: Open): Option<char> {
    if o.Base? then None else Some(o.open)
  }

  predicate WellOpen(o: Open, stack: seq<Frame>) {
    match o
    case Base(doc) => stack == [] && WellQuoted(doc, None)
    case Inside(outer, open, doc) =>
      && stack != []
      && stack[|stack| - 1].close == Some(CloseFor(open))
      && Opens(open)
      && !(open == STRAIGHT && Innermost(outer) == Some(STRAIGHT))
      && WellQuoted(doc, Some(open))
      && WellOpen(outer, stack[..|stack| - 1])
  }

  function WithPlain(o: Open, c: char): Open {
    match o
    case Base(doc) => Base(Plain(doc, c))
    case Inside(outer, open, doc) => Inside(outer, open, Plain(doc, c))
  }

  /** The innermost quotation is complete. */
  function Completed(o: Open): Open
    requires o.Inside?
  {
    match o.outer
    case Base(doc) => Base(Quoted(doc, o.open, o.doc))
    case Inside(outer, open, doc) => Inside(outer, open, Quoted(doc, o.open, o.doc))
  }

  lemma PlainKeeps(o: Open, stack: seq<Frame>, c: char)
    requires WellOpen(o, stack) && !IsMark(c)
    ensures WellOpen(WithPlain(o, c), stack) && OpenText(WithPlain(o, c)) == OpenText(o) + [c]
  {
    if o.Inside? {
      assert OpenText(WithPlain(o, c)) == OpenText(o.outer) + [o.open] + (Text(o.doc) + [c]);
    }
  }

  lemma OpenKeeps(o: Open, stack: seq<Frame>, c: char, id: ScopeId)
    requires WellOpen(o, stack) && Opens(c) && !(c == STRAIGHT && Innermost(o) == Some(STRAIGHT))
    ensures var n := Inside(o, c, Empty);
      WellOpen(n, stack + [Frame(Some(CloseFor(c)), id)]) && OpenText(n) == OpenText(o) + [c]
  {
    assert (stack + [Frame(Some(CloseFor(c)), id)])[..|stack|] == stack;
  }

  lemma CloseKeeps(o: Open, stack: seq<Frame>, c: char)
    requires WellOpen(o, stack) && TopCloses(stack, c)
    ensures o.Inside? && CloseFor(o.open) == c
    ensures WellOpen(Completed(o), stack[..|stack| - 1]) && OpenText(Completed(o)) == OpenText(o) + [c]
  {
    CompletedText(o);
  }

  lemma CompletedText(o: Open)
    requires o.Inside?
    ensures OpenText(Completed(o)) == OpenText(o) + [CloseFor(o.open)]
  {
    var close := [CloseFor(o.open)];
    match o.outer
    case Base(doc) =>
    case Inside(outer, open, doc) =>
      Regroup(OpenText(outer) + [open], Text(doc), [o.open], Text(o.doc), close);
  }

  lemma Regroup(a: string, b: string, c: string, d: string, e: string)
    ensures a + (b + c + d + e) == a + b + c + d + e
  {
  }

  /** A scan without dead frames has read a document whose open quotations are exactly its frames. */
  lemma {:induction false} Parse(t: string) returns (o: Open)
    requires forall i :: 0 <= i < |Scan(t).stack| ==> !Dead(Scan(t).stack[i])
    ensures WellOpen(o, Scan(t).stack) && OpenText(o) == t
  {
    if t == [] {
      return Base(Empty);
    }
    var front, c := t[..|t| - 1], t[|t| - 1];
    var before := Scan(front);
    assert t == front + [c];
    ScanStep(front, c);
    ScanOne(before, c, |front|);
    forall i | 0 <= i < |before.stack| ensures !Dead(before.stack[i]) {
      if Dead(before.stack[i]) {
        DeadFrameStays(before, [c], |front|, i);
      }
    }
    var p := Parse(front);
    o := ParseStep(p, before, c, |front|);
  }

  /** One more character of a text without dead frames. */
  lemma ParseStep(p: Open, before: Scanner, c: char, index: nat) returns (o: Open)
    requires WellOpen(p, before.stack)
    requires var after := Step(before, c, index).stack; forall i :: 0 <= i < |after| ==> !Dead(after[i])
    ensures WellOpen(o, Step(before, c, index).stack) && OpenText(o) == OpenText(p) + [c]
  {
    var after := Step(before, c, index).stack;
    if !IsMark(c) {
      PlainKeeps(p, before.stack, c);
      o := WithPlain(p, c);
    } else if ClosingOf(c).None? && TopCloses(before.stack, c) {
      CloseKeeps(p, before.stack, c);
      o := Completed(p);
    } else {
      assert !Dead(after[|after| - 1]);
      var id := LiveMarkOpens(before, c, index);
      OpenSafe(p, before.stack, c);
      OpenKeeps(p, before.stack, c, id);
      o := Inside(p, c, Empty);
    }
  }

  /** A mark that closes nothing and leaves no dead frame opens a quotation. */
  lemma LiveMarkOpens(before: Scanner, c: char, index: nat) returns (id: ScopeId)
    requires IsMark(c) && !(ClosingOf(c).None? && TopCloses(before.stack, c))
    requires var after := Step(before, c, index).stack; after != [] && !Dead(after[|after| - 1])
    ensures Opens(c) && Step(before, c, index).stack == before.stack + [Frame(Some(CloseFor(c)), id)]
  {
    var after := Step(before, c, index).stack;
    id := after[|after| - 1].id;
  }

  lemma OpenSafe(o: Open, stack: seq<Frame>, c: char)
    requires WellOpen(o, stack) && !(ClosingOf(c).None? && TopCloses(stack, c))
    ensures !(c == STRAIGHT && Innermost(o) == Some(STRAIGHT))
  {
  }

  /**
   * A position is outside exactly when the text before it is plain characters and complete, properly nested
   * quotations, and then it is never reported as malformed.
   */
  lemma OutsideMeansProperlyQuoted(t: string)
    ensures ScopeOf(Scan(t)).id == Outside <==> ProperlyQuoted(t)
    ensures ScopeOf(Scan(t)).id == Outside ==> !Scan(t).malformed
  {
    ScopeIdsAreNotOutside(t);
    if ScopeOf(Scan(t)).id == Outside {
      var o := Parse(t);
      assert WellQuoted(o.doc, None) && Text(o.doc) == t;
      if Scan(t).malformed {
        MalformedIsDead(t);
      }
    }
    if ProperlyQuoted(t) {
      var d :| WellQuoted(d, None) && Text(d) == t;
      DocIsTransparent(START, d, None, 0);
    }
  }

  // ---- scopes identify quotations ----

  /** The frame was pushed before `length` characters had been read, `nextId` being the next id then. */
  predicate IssuedBefore(id: ScopeId, nextId: nat, length: nat) {
    match id
    case InQuote(n) => n < nextId
    case MalformedAt(i) => i < length
    case _ => false
  }

  lemma {:induction false} IdsGrow(t: string, p: nat, r: nat)
    requires p <= r <= |t|
    ensures Scan(t[..p]).nextId <= Scan(t[..r]).nextId
  {
    if p < r {
      assert t[..r][..r - 1] == t[..r - 1];
      IdsGrow(t, p, r - 1);
    }
  }

  lemma {:induction false} AllIssued(t: string)
    ensures forall i :: 0 <= i < |Scan(t).stack| ==> IssuedBefore(Scan(t).stack[i].id, Scan(t).nextId, |t|)
  {
    if t != [] {
      var front, c := t[..|t| - 1], t[|t| - 1];
      assert t == front + [c];
      AllIssued(front);
      ScanStep(front, c);
      StepFrames(Scan(front), c, |front|);
    }
  }

  /** A frame older than position `p` that is on the stack at `r` was there all the time in between. */
  lemma {:induction false} OldFrameStayed(t: string, p: nat, r: nat, i: nat, q: nat)
    requires p <= q <= r <= |t| && i < |Scan(t[..r]).stack|
    requires IssuedBefore(Scan(t[..r]).stack[i].id, Scan(t[..p]).nextId, p)
    ensures i < |Scan(t[..q]).stack| && Scan(t[..q]).stack[i] == Scan(t[..r]).stack[i]
  {
    if q < r {
      assert t[..r][..r - 1] == t[..r - 1];
      IdsGrow(t, p, r - 1);
      OldFrameStayed(t, p, r - 1, i, q);
    }
  }

  /**
   * Two positions with the same scope other than outside lie in the same quotation: it was never left between
   * them, so a scope comparison cannot reach across a quotation boundary.
   */
  lemma SameScopeSameQuotation(t: string, p: nat, r: nat, q: nat)
    requires p <= q <= r <= |t|
    requires ScopeAt(t, p).id == ScopeAt(t, r).id && ScopeAt(t, p).id != Outside
    ensures exists i :: 0 <= i < |Scan(t[..q]).stack| && Scan(t[..q]).stack[i].id == ScopeAt(t, p).id
  {
    var later := Scan(t[..r]).stack;
    var i := |later| - 1;
    AllIssued(t[..p]);
    OldFrameStayed(t, p, r, i, q);
  }

  // ---- spans ----

  function NonBlankPositions(text: string, start: int, end: int): seq<nat>
    decreases if end > start then end - start else 0
  {
    var lo := if start < 0 then 0 else start;
    if lo >= |text| || lo >= end then []
    else (if IsSpace(text[lo]) then [] else [lo]) + NonBlankPositions(text, lo + 1, end)
  }

  lemma {:induction false} NonBlankPositionsExact(text: string, start: int, end: int)
    ensures forall k :: k in NonBlankPositions(text, start, end) <==>
              0 <= k < |text| && start <= k < end && !IsSpace(text[k])
    decreases if end > start then end - start else 0
  {
    var lo := if start < 0 then 0 else start;
    if lo < |text| && lo < end {
      NonBlankPositionsExact(text, lo + 1, end);
    }
  }

  /** `quote_scope_for_span` */
  function SpanScope(text: string, start: int, end: int): QuoteScope {
    var positions := NonBlankPositions(text, start, end);
    if positions == [] then
      ScopeAt(text, start)
    else if exists k :: k in positions && ScopeAt(text, k).id != ScopeAt(text, positions[0]).id then
      QuoteScope(MixedScope, true)
    else
      QuoteScope(ScopeAt(text, positions[0]).id, exists k :: k in positions && ScopeAt(text, k).malformed)
  }

  /** `is_outside_quote` */
  predicate IsOutsideQuote(scope: QuoteScope) {
    scope.id == Outside && !scope.malformed
  }

  /**
   * A span is outside exactly when the text before each of its visible characters is properly quoted; for a span of
   * blanks, exactly when the text before its start is.
   */
  lemma SpanOutside(text: string, start: int, end: int)
    ensures NonBlankPositions(text, start, end) != [] ==>
              (IsOutsideQuote(SpanScope(text, start, end)) <==>
               forall k :: 0 <= k < |text| && start <= k < end && !IsSpace(text[k]) ==> ProperlyQuoted(text[..k]))
    ensures NonBlankPositions(text, start, end) == [] ==>
              (IsOutsideQuote(SpanScope(text, start, end)) <==> ProperlyQuoted(text[..Bounded(start, |text|)]))
    ensures IsOutsideQuote(SpanScope(text, start, end)) <==> SpanScope(text, start, end).id == Outside
  {
    var positions := NonBlankPositions(text, start, end);
    NonBlankPositionsExact(text, start, end);
    forall k | k in positions
      ensures ScopeAt(text, k).id == Outside <==> ProperlyQuoted(text[..k])
      ensures ScopeAt(text, k).id == Outside ==> !ScopeAt(text, k).malformed
    {
      OutsideMeansProperlyQuoted(text[..k]);
    }
    if positions == [] {
      OutsideMeansProperlyQuoted(text[..Bounded(start, |text|)]);
    } else {
      assert positions[0] in positions;
    }
  }
}
