/**
 * Cutting a segment into discourse units (`coreference_units.py`): sentences, clauses at strong switches, and
 * chunks of at most 420 characters.
 */
module TextUnits {
  import opened Common
  import opened Characters

  const MAX_CONTEXT_CHARS := 420

  /** A half-open range of character positions. */
  datatype Span = Span(lo: nat, hi: nat)

  datatype TextUnit = TextUnit(segment: Id, start: nat, end: nat, text: string)

  predicate IsTerminator(c: char) {
    c == '.' || c == '!' || c == '?' || c == '\U{2026}' || c == ';' || c == '\n'
  }

  // ---- what it means to tile a stretch of text ----

  ghost predicate Blank(text: string, lo: nat, hi: nat)
    requires hi <= |text|
  {
    forall k :: lo <= k < hi ==> IsSpace(text[k])
  }

  /** Non-empty, inside the stretch, with a visible character at both ends. */
  ghost predicate Trimmed(text: string, s: Span, lo: nat, hi: nat) {
    lo <= s.lo < s.hi <= hi <= |text| && !IsSpace(text[s.lo]) && !IsSpace(text[s.hi - 1])
  }

  /** Trimmed spans follow one another with nothing but blanks before, between and after them. */
  ghost predicate Tiles(text: string, spans: seq<Span>, lo: nat, hi: nat)
    decreases |spans|
  {
    && lo <= hi <= |text|
    && if spans == [] then
         Blank(text, lo, hi)
       else
         var s := spans[|spans| - 1];
         Trimmed(text, s, lo, hi) && Blank(text, s.hi, hi) && Tiles(text, spans[..|spans| - 1], lo, s.lo)
  }

  ghost predicate Short(spans: seq<Span>) {
    forall s :: s in spans ==> s.hi - s.lo <= 420
  }

  ghost predicate Covers(s: Span, k: nat) {
    s.lo <= k < s.hi
  }

  lemma {:induction false} TilesOrdered(text: string, spans: seq<Span>, lo: nat, hi: nat)
    requires Tiles(text, spans, lo, hi)
    ensures forall i :: 0 <= i < |spans| ==> Trimmed(text, spans[i], lo, hi)
    ensures forall i, j :: 0 <= i < j < |spans| ==> spans[i].hi <= spans[j].lo
  {
    if spans != [] {
      var n := |spans| - 1;
      TilesOrdered(text, spans[..n], lo, spans[n].lo);
      assert forall i :: 0 <= i < n ==> spans[..n][i] == spans[i];
    }
  }

  lemma {:induction false} TilesCover(text: string, spans: seq<Span>, lo: nat, hi: nat, k: nat) returns (i: nat)
    requires Tiles(text, spans, lo, hi) && lo <= k < hi && !IsSpace(text[k])
    ensures i < |spans| && Covers(spans[i], k)
  {
    var n := |spans| - 1;
    if k < spans[n].lo {
      i := TilesCover(text, spans[..n], lo, spans[n].lo, k);
    } else {
      i := n;
    }
  }

  /**
   * What a tiling is, span by span: trimmed, ordered, disjoint, and every visible character of the stretch lies in
   * exactly one span.
   */
  lemma TilesMeaning(text: string, spans: seq<Span>, lo: nat, hi: nat)
    requires Tiles(text, spans, lo, hi)
    ensures forall i :: 0 <= i < |spans| ==> Trimmed(text, spans[i], lo, hi)
    ensures forall i, j :: 0 <= i < j < |spans| ==> spans[i].hi <= spans[j].lo
    ensures forall k :: lo <= k < hi && !IsSpace(text[k]) ==> InExactlyOne(spans, k)
  {
    TilesOrdered(text, spans, lo, hi);
    forall k | lo <= k < hi && !IsSpace(text[k]) ensures InExactlyOne(spans, k) {
      var i := TilesCover(text, spans, lo, hi, k);
      forall j | 0 <= j < |spans| && j != i ensures !Covers(spans[j], k) {
        if j < i {
          assert spans[j].hi <= spans[i].lo;
        } else {
          assert spans[i].hi <= spans[j].lo;
        }
      }
    }
  }

  ghost predicate InExactlyOne(spans: seq<Span>, k: nat) {
    exists i :: 0 <= i < |spans| && Covers(spans[i], k) &&
                forall j :: 0 <= j < |spans| && Covers(spans[j], k) ==> j == i
  }

  /** A blank stretch after what is tiled can be added. */
  lemma WidenRight(text: string, spans: seq<Span>, lo: nat, hi: nat, hi': nat)
    requires Tiles(text, spans, lo, hi) && hi <= hi' <= |text| && Blank(text, hi, hi')
    ensures Tiles(text, spans, lo, hi')
  {
  }

  lemma {:induction false} WidenLeft(text: string, spans: seq<Span>, lo': nat, lo: nat, hi: nat)
    requires Tiles(text, spans, lo, hi) && lo' <= lo && Blank(text, lo', lo)
    ensures Tiles(text, spans, lo', hi)
    decreases |spans|
  {
    if spans != [] {
      WidenLeft(text, spans[..|spans| - 1], lo', lo, spans[|spans| - 1].lo);
    }
  }

  lemma {:induction false} TilesConcat(text: string, a: seq<Span>, b: seq<Span>, lo: nat, mid: nat, hi: nat)
    requires Tiles(text, a, lo, mid) && Tiles(text, b, mid, hi)
    ensures Tiles(text, a + b, lo, hi)
    decreases |b|
  {
    if b == [] {
      assert a + b == a;
      WidenRight(text, a, lo, mid, hi);
    } else {
      var s, front := b[|b| - 1], b[..|b| - 1];
      TilesConcat(text, a, front, lo, mid, s.lo);
      assert (a + b)[..|a + b| - 1] == a + front;
    }
  }

  lemma TilesSnoc(text: string, a: seq<Span>, s: Span, lo: nat, hi: nat)
    requires lo <= s.lo && Tiles(text, a, lo, s.lo) && Trimmed(text, s, lo, hi) && Blank(text, s.hi, hi)
    ensures Tiles(text, a + [s], lo, hi)
  {
    assert (a + [s])[..|a|] == a;
  }

  /** The first `i` spans tile everything before the next one. */
  lemma {:induction false} TilesPrefix(text: string, spans: seq<Span>, lo: nat, hi: nat, i: nat)
    requires Tiles(text, spans, lo, hi) && i <= |spans|
    ensures Tiles(text, spans[..i], lo, if i == |spans| then hi else spans[i].lo)
    ensures i < |spans| ==> Trimmed(text, spans[i], lo, hi)
    decreases |spans|
  {
    if i == |spans| {
      assert spans[..i] == spans;
    } else {
      var front := spans[..|spans| - 1];
      assert front[..i] == spans[..i];
      TilesPrefix(text, front, lo, spans[|spans| - 1].lo, i);
    }
  }

  /** A tiling is empty exactly when there is nothing visible to tile. */
  lemma TilesEmpty(text: string, spans: seq<Span>, lo: nat, hi: nat)
    requires Tiles(text, spans, lo, hi)
    ensures spans == [] <==> Blank(text, lo, hi)
  {
  }

  // ---- trimming ----

  /** `_trimmed_span` */
  method TrimmedSpan(text: string, start: nat, end: nat) returns (r: Option<Span>)
    requires start <= end <= |text|
    ensures r.None? <==> Blank(text, start, end)
    ensures r.Some? ==> Trimmed(text, r.value, start, end) &&
                        Blank(text, start, r.value.lo) && Blank(text, r.value.hi, end)
  {
    var a, b := start, end;
    while a < b && IsSpace(text[a])
      invariant start <= a <= b && Blank(text, start, a)
    {
      a := a + 1;
    }
    while b > a && IsSpace(text[b - 1])
      invariant a <= b <= end && Blank(text, b, end)
    {
      b := b - 1;
    }
    return if a < b then Some(Span(a, b)) else None;
  }

  // ---- chunks ----

  ghost predicate AllVisible(text: string, s: Span)
    requires s.hi <= |text|
  {
    forall k :: s.lo <= k < s.hi ==> !IsSpace(text[k])
  }

  /** `re.finditer(r"\\S+", ...)`: the maximal runs of visible characters. */
  method FindWords(text: string, start: nat, end: nat) returns (words: seq<Span>)
    requires start <= end <= |text|
    ensures Tiles(text, words, start, end)
    ensures forall w :: w in words ==> w.hi <= end && AllVisible(text, w) && (w.hi == end || IsSpace(text[w.hi]))
  {
    words := [];
    var pos := start;
    while pos < end
      invariant start <= pos <= end && Tiles(text, words, start, pos)
      invariant forall w :: w in words ==> w.hi <= end && AllVisible(text, w) && (w.hi == end || IsSpace(text[w.hi]))
    {
      if IsSpace(text[pos]) {
        WidenRight(text, words, start, pos, pos + 1);
        pos := pos + 1;
      } else {
        var stop := WordEnd(text, pos, end);
        TilesSnoc(text, words, Span(pos, stop), start, stop);
        words := words + [Span(pos, stop)];
        pos := stop;
      }
    }
  }

  /** Greedy matching of one word. */
  method WordEnd(text: string, pos: nat, end: nat) returns (stop: nat)
    requires pos < end <= |text| && !IsSpace(text[pos])
    ensures pos < stop <= end && AllVisible(text, Span(pos, stop)) && (stop == end || IsSpace(text[stop]))
  {
    stop := pos + 1;
    while stop < end && !IsSpace(text[stop])
      invariant pos < stop <= end && AllVisible(text, Span(pos, stop))
    {
      stop := stop + 1;
    }
  }

  /** Consecutive pieces of 420 characters, the last one shorter. */
  function Pieces(start: nat, end: nat): seq<Span>
    decreases if end > start then end - start else 0
  {
    if start >= end then []
    else
      var stop := if start + MAX_CONTEXT_CHARS < end then start + MAX_CONTEXT_CHARS else end;
      [Span(start, stop)] + Pieces(start + MAX_CONTEXT_CHARS, end)
  }

  lemma {:induction false} PiecesTile(text: string, start: nat, end: nat)
    requires start < end <= |text| && AllVisible(text, Span(start, end))
    ensures Tiles(text, Pieces(start, end), start, end) && Short(Pieces(start, end))
    decreases end - start
  {
    var stop := if start + MAX_CONTEXT_CHARS < end then start + MAX_CONTEXT_CHARS else end;
    TilesSnoc(text, [], Span(start, stop), start, stop);
    if stop < end {
      PiecesTile(text, stop, end);
      TilesConcat(text, [Span(start, stop)], Pieces(stop, end), start, stop, end);
    } else {
      assert Pieces(start + MAX_CONTEXT_CHARS, end) == [];
      assert Pieces(start, end) == [Span(start, stop)];
    }
  }

  // ---- where chunks end ----

  /** The word that `v` begins with, or a part of it, does not fit into `u` as well. */
  ghost predicate NextDoesNotFit(text: string, u: Span, v: Span) {
    exists e: nat :: v.lo < e <= v.hi <= |text| && AllVisible(text, Span(v.lo, e)) && e - u.lo > 420
  }

  /** `u` ends a word that is too long for one chunk. */
  ghost predicate EndsLongWord(text: string, u: Span) {
    exists w: nat :: w < u.hi <= |text| && AllVisible(text, Span(w, u.hi)) && u.hi - w > 420
  }

  ghost predicate ChunkCut(text: string, u: Span, v: Span) {
    NextDoesNotFit(text, u, v) || EndsLongWord(text, u)
  }

  /** Neighbouring chunks are apart for a reason. */
  ghost predicate ChunksApart(text: string, chunks: seq<Span>) {
    forall i :: 0 < i < |chunks| ==> ChunkCut(text, chunks[i - 1], chunks[i])
  }

  lemma ChunksApartConcat(text: string, a: seq<Span>, b: seq<Span>)
    requires ChunksApart(text, a) && ChunksApart(text, b)
    requires a != [] && b != [] ==> ChunkCut(text, a[|a| - 1], b[0])
    ensures ChunksApart(text, a + b)
  {
    forall i | 0 < i < |a + b| ensures ChunkCut(text, (a + b)[i - 1], (a + b)[i]) {
      if i < |a| {
        assert (a + b)[i - 1] == a[i - 1] && (a + b)[i] == a[i];
      } else if i > |a| {
        assert (a + b)[i - 1] == b[i - |a| - 1] && (a + b)[i] == b[i - |a|];
      }
    }
  }

  lemma FitsNot(text: string, u: Span, v: Span, e: nat)
    requires v.lo < e <= v.hi <= |text| && AllVisible(text, Span(v.lo, e)) && e - u.lo > MAX_CONTEXT_CHARS
    ensures ChunkCut(text, u, v)
  {
  }

  /** The pieces of an over-long word are full except for the last one, which ends the word. */
  lemma {:induction false} PiecesApart(text: string, start: nat, end: nat)
    requires start < end <= |text| && AllVisible(text, Span(start, end))
    ensures ChunksApart(text, Pieces(start, end)) && Pieces(start, end) != []
    ensures var first := Pieces(start, end)[0];
      first.lo == start && first.hi == if start + MAX_CONTEXT_CHARS < end then start + MAX_CONTEXT_CHARS else end
    ensures Pieces(start, end)[|Pieces(start, end)| - 1].hi == end
    decreases end - start
  {
    var stop := if start + MAX_CONTEXT_CHARS < end then start + MAX_CONTEXT_CHARS else end;
    if stop < end {
      PiecesApart(text, stop, end);
      var rest := Pieces(stop, end);
      FitsNot(text, Span(start, stop), rest[0], rest[0].hi);
      ChunksApartConcat(text, [Span(start, stop)], rest);
      assert Pieces(start, end) == [Span(start, stop)] + rest;
    } else {
      assert Pieces(start + MAX_CONTEXT_CHARS, end) == [];
      assert Pieces(start, end) == [Span(start, stop)];
    }
  }

  /** A chunk that grows to the right stays apart from the one before it. */
  lemma GrowLast(text: string, chunks: seq<Span>, v: Span, hi: nat)
    requires ChunksApart(text, chunks + [v]) && v.hi <= hi <= |text|
    ensures ChunksApart(text, chunks + [Span(v.lo, hi)])
  {
    var a, b := chunks + [v], chunks + [Span(v.lo, hi)];
    forall i | 0 < i < |b| ensures ChunkCut(text, b[i - 1], b[i]) {
      assert ChunkCut(text, a[i - 1], a[i]);
      assert a[i - 1] == b[i - 1];
    }
  }

  /** The chunk under construction. */
  function Pending(chunk: Option<Span>): seq<Span> {
    if chunk.Some? then [chunk.value] else []
  }

  /** Everything up to `reached` is in `chunks` or in the pending chunk, which ends there. */
  ghost predicate ChunkState(text: string, chunks: seq<Span>, chunk: Option<Span>, start: nat, reached: nat) {
    && Tiles(text, chunks + Pending(chunk), start, reached)
    && Short(chunks + Pending(chunk))
    && ChunksApart(text, chunks + Pending(chunk))
    && (chunk.Some? ==> chunk.value.hi == reached)
    && (chunk.None? && chunks != [] ==> EndsLongWord(text, chunks[|chunks| - 1]))
  }

  /** The next word joins the pending chunk. */
  lemma JoinWord(text: string, chunks: seq<Span>, chunk: Span, start: nat, reached: nat, word: Span)
    requires ChunkState(text, chunks, Some(chunk), start, reached)
    requires reached <= word.lo && Trimmed(text, word, start, |text|)
    requires word.hi - chunk.lo <= MAX_CONTEXT_CHARS
    ensures ChunkState(text, chunks, Some(Span(chunk.lo, word.hi)), start, word.hi)
  {
    assert (chunks + [chunk])[..|chunks|] == chunks;
    TilesSnoc(text, chunks, Span(chunk.lo, word.hi), start, word.hi);
    assert forall s :: s in chunks ==> s in chunks + [chunk];
    GrowLast(text, chunks, chunk, word.hi);
  }

  /** Flush the pending chunk and continue with `more`, which tiles the next word. */
  lemma FlushThen(text: string, chunks: seq<Span>, chunk: Option<Span>, start: nat, reached: nat, more: seq<Span>,
                  lo: nat, hi: nat)
    requires ChunkState(text, chunks, chunk, start, reached)
    requires reached <= lo && Tiles(text, more, lo, hi) && Short(more) && Blank(text, reached, lo)
    requires ChunksApart(text, more) && more != []
    requires chunk.Some? ==> ChunkCut(text, chunk.value, more[0])
    ensures Tiles(text, chunks + Pending(chunk) + more, start, hi) && Short(chunks + Pending(chunk) + more)
    ensures ChunksApart(text, chunks + Pending(chunk) + more)
  {
    ChunksApartConcat(text, chunks + Pending(chunk), more);
    WidenRight(text, chunks + Pending(chunk), start, reached, lo);
    TilesConcat(text, chunks + Pending(chunk), more, start, lo, hi);
  }

  /** `_chunk_span`, for a span that begins and ends with a visible character. */
  method ChunkSpan(text: string, start: nat, end: nat) returns (chunks: seq<Span>)
    requires Trimmed(text, Span(start, end), start, end)
    ensures Tiles(text, chunks, start, end) && Short(chunks) && ChunksApart(text, chunks)
  {
    if end - start <= MAX_CONTEXT_CHARS {
      TilesSnoc(text, [], Span(start, end), start, end);
      return [Span(start, end)];
    }
    var words := FindWords(text, start, end);
    chunks := ChunkWords(text, start, end, words);
  }

  /** The loop of `_chunk_span`. */
  method ChunkWords(text: string, ghost start: nat, ghost end: nat, words: seq<Span>) returns (chunks: seq<Span>)
    requires Tiles(text, words, start, end)
    requires forall w :: w in words ==> w.hi <= |text| && AllVisible(text, w)
    ensures Tiles(text, chunks, start, end) && Short(chunks) && ChunksApart(text, chunks)
  {
    chunks := [];
    var chunk: Option<Span> := None;
    for i := 0 to |words|
      invariant ChunkState(text, chunks, chunk, start, Reached(words, start, i))
    {
      GapIsBlank(text, words, start, end, i);
      WordInText(text, words, start, end, i);
      chunks, chunk := AddWord(text, chunks, chunk, start, Reached(words, start, i), words[i]);
    }
    TailIsBlank(text, words, start, end);
    LastFlush(text, chunks, chunk, start, Reached(words, start, |words|), end);
    chunks := chunks + Pending(chunk);
  }

  lemma LastFlush(text: string, chunks: seq<Span>, chunk: Option<Span>, start: nat, reached: nat, end: nat)
    requires ChunkState(text, chunks, chunk, start, reached) && reached <= end <= |text| && Blank(text, reached, end)
    ensures Tiles(text, chunks + Pending(chunk), start, end) && Short(chunks + Pending(chunk))
    ensures ChunksApart(text, chunks + Pending(chunk))
  {
    WidenRight(text, chunks + Pending(chunk), start, reached, end);
  }

  lemma WordInText(text: string, words: seq<Span>, start: nat, end: nat, i: nat)
    requires Tiles(text, words, start, end) && i < |words|
    requires forall w :: w in words ==> w.hi <= |text| && AllVisible(text, w)
    ensures Trimmed(text, words[i], start, |text|) && AllVisible(text, words[i])
    ensures Reached(words, start, i) <= words[i].lo && Reached(words, start, i + 1) == words[i].hi
  {
    GapIsBlank(text, words, start, end, i);
  }

  ghost function Reached(words: seq<Span>, start: nat, i: nat): nat
    requires i <= |words|
  {
    if i == 0 then start else words[i - 1].hi
  }

  /** A word that is longer than a chunk is cut into pieces. */
  lemma CutWord(text: string, chunks: seq<Span>, chunk: Option<Span>, start: nat, reached: nat, word: Span)
    requires ChunkState(text, chunks, chunk, start, reached)
    requires reached <= word.lo && word.hi <= |text| && word.hi - word.lo > MAX_CONTEXT_CHARS
    requires Blank(text, reached, word.lo) && AllVisible(text, word)
    ensures ChunkState(text, chunks + Pending(chunk) + Pieces(word.lo, word.hi), None, start, word.hi)
  {
    var pieces := Pieces(word.lo, word.hi);
    PiecesTile(text, word.lo, word.hi);
    PiecesApart(text, word.lo, word.hi);
    if chunk.Some? {
      FitsNot(text, chunk.value, pieces[0], pieces[0].hi);
    }
    FlushThen(text, chunks, chunk, start, reached, pieces, word.lo, word.hi);
    var all := chunks + Pending(chunk) + pieces;
    assert all + Pending(None) == all && all[|all| - 1] == pieces[|pieces| - 1];
  }

  /** A word that does not fit any more starts the next chunk. */
  lemma StartChunk(text: string, chunks: seq<Span>, chunk: Option<Span>, start: nat, reached: nat, word: Span)
    requires ChunkState(text, chunks, chunk, start, reached)
    requires reached <= word.lo < word.hi <= |text| && word.hi - word.lo <= MAX_CONTEXT_CHARS
    requires chunk.Some? ==> word.hi - chunk.value.lo > MAX_CONTEXT_CHARS
    requires Blank(text, reached, word.lo) && AllVisible(text, word)
    ensures ChunkState(text, chunks + Pending(chunk), Some(word), start, word.hi)
  {
    TilesSnoc(text, [], word, word.lo, word.hi);
    assert [] + [word] == [word];
    if chunk.Some? {
      FitsNot(text, chunk.value, word, word.hi);
    }
    FlushThen(text, chunks, chunk, start, reached, [word], word.lo, word.hi);
  }

  /** The loop body of `_chunk_span` for one word. */
  method AddWord(text: string, chunks: seq<Span>, chunk: Option<Span>, ghost start: nat, ghost reached: nat, word: Span)
    returns (chunks': seq<Span>, chunk': Option<Span>)
    requires ChunkState(text, chunks, chunk, start, reached)
    requires reached <= word.lo <= word.hi <= |text| && Trimmed(text, word, start, |text|)
    requires Blank(text, reached, word.lo) && AllVisible(text, word)
    ensures ChunkState(text, chunks', chunk', start, word.hi)
  {
    if word.hi - word.lo > MAX_CONTEXT_CHARS {
      CutWord(text, chunks, chunk, start, reached, word);
      chunks', chunk' := chunks + Pending(chunk) + Pieces(word.lo, word.hi), None;
    } else if chunk.None? || word.hi - chunk.value.lo > MAX_CONTEXT_CHARS {
      StartChunk(text, chunks, chunk, start, reached, word);
      chunks', chunk' := chunks + Pending(chunk), Some(word);
    } else {
      JoinWord(text, chunks, chunk.value, start, reached, word);
      chunks', chunk' := chunks, Some(Span(chunk.value.lo, word.hi));
    }
  }

  /** Between two neighbouring spans of a tiling there is nothing visible. */
  lemma GapIsBlank(text: string, spans: seq<Span>, lo: nat, hi: nat, i: nat)
    requires Tiles(text, spans, lo, hi) && i < |spans|
    ensures Trimmed(text, spans[i], lo, hi)
    ensures lo <= Reached(spans, lo, i) <= spans[i].lo && Blank(text, Reached(spans, lo, i), spans[i].lo)
  {
    TilesPrefix(text, spans, lo, hi, i);
    if i > 0 {
      assert spans[..i][i - 1] == spans[i - 1];
    }
  }

  lemma TailIsBlank(text: string, spans: seq<Span>, lo: nat, hi: nat)
    requires Tiles(text, spans, lo, hi)
    ensures lo <= Reached(spans, lo, |spans|) <= hi && Blank(text, Reached(spans, lo, |spans|), hi)
  {
  }

  // ---- clauses and sentences ----

  /** Starts of the matches of `_STRONG_SWITCH_RE` in a stretch: strictly increasing positions inside it. */
  ghost predicate Boundaries(bs: seq<nat>, lo: nat, hi: nat) {
    && (forall i :: 0 <= i < |bs| ==> lo <= bs[i] < hi)
    && (forall i, j :: 0 <= i < j < |bs| ==> bs[i] < bs[j])
  }

  /** A clause does not go across a switch. */
  ghost predicate Unswitched(bs: seq<nat>, c: Span) {
    forall s :: s in bs ==> !(c.lo < s < c.hi)
  }

  ghost predicate SwitchBetween(bs: seq<nat>, u: Span, v: Span) {
    exists s :: s in bs && u.hi <= s <= v.lo
  }

  /** The clauses cut at every switch and nowhere else. */
  ghost predicate CutAtSwitches(bs: seq<nat>, spans: seq<Span>) {
    && (forall c :: c in spans ==> Unswitched(bs, c))
    && (forall i :: 0 < i < |spans| ==> SwitchBetween(bs, spans[i - 1], spans[i]))
  }

  /** `_split_strong_switches`: clauses tile the stretch wherever the switches are, and every switch separates them. */
  method SplitStrongSwitches(text: string, start: nat, end: nat, switches: seq<nat>) returns (spans: seq<Span>)
    requires start <= end <= |text| && Boundaries(switches, start, end)
    ensures Tiles(text, spans, start, end) && CutAtSwitches(switches, spans)
  {
    spans := [];
    var cursor := start;
    for i := 0 to |switches|
      invariant start <= cursor <= end && cursor == CursorAt(switches, start, i)
      invariant Tiles(text, spans, start, cursor) && CutAtSwitches(switches, spans)
      invariant i == 0 ==> spans == []
    {
      var boundary := switches[i];
      spans := AppendTrimmed(text, spans, start, cursor, boundary, switches, i);
      cursor := boundary;
    }
    spans := AppendTrimmed(text, spans, start, cursor, end, switches, |switches|);
  }

  ghost function CursorAt(switches: seq<nat>, start: nat, i: nat): nat
    requires i <= |switches|
  {
    if i == 0 then start else switches[i - 1]
  }

  /** A clause between two neighbouring switches comes after the clauses before the first of them. */
  lemma OneMoreClause(spans: seq<Span>, c: Span, switches: seq<nat>, start: nat, end: nat, i: nat)
    requires Boundaries(switches, start, end) && i <= |switches| && CutAtSwitches(switches, spans)
    requires spans != [] ==> i > 0 && spans[|spans| - 1].hi <= switches[i - 1]
    requires CursorAt(switches, start, i) <= c.lo && (i < |switches| ==> c.hi <= switches[i])
    ensures CutAtSwitches(switches, spans + [c])
  {
    forall s | s in switches ensures !(c.lo < s < c.hi) {
      var j :| 0 <= j < |switches| && switches[j] == s;
    }
    if spans != [] {
      assert SwitchBetween(switches, spans[|spans| - 1], c) by {
        assert switches[i - 1] in switches;
      }
    }
  }

  method AppendTrimmed(text: string, spans: seq<Span>, start: nat, cursor: nat, boundary: nat,
                       ghost switches: seq<nat>, ghost i: nat)
    returns (r: seq<Span>)
    requires Tiles(text, spans, start, cursor) && cursor <= boundary <= |text|
    requires Boundaries(switches, start, |text|) && i <= |switches| && CutAtSwitches(switches, spans)
    requires cursor == CursorAt(switches, start, i) && (i == 0 ==> spans == [])
    requires i < |switches| ==> boundary == switches[i]
    ensures Tiles(text, r, start, boundary) && CutAtSwitches(switches, r)
  {
    var trimmed := TrimmedSpan(text, cursor, boundary);
    if trimmed.Some? {
      OneMoreClause(spans, trimmed.value, switches, start, |text|, i);
      WidenRight(text, spans, start, cursor, trimmed.value.lo);
      TilesSnoc(text, spans, trimmed.value, start, boundary);
      r := spans + [trimmed.value];
    } else {
      WidenRight(text, spans, start, cursor, boundary);
      r := spans;
    }
  }

  /** Length of the leading run of terminators, which no sentence match can contain. */
  function LeadingTerminators(text: string): (n: nat)
    ensures n <= |text|
    ensures n < |text| ==> !IsTerminator(text[n])
    ensures forall k :: 0 <= k < n ==> IsTerminator(text[k])
  {
    if text == [] || !IsTerminator(text[0]) then 0 else 1 + LeadingTerminators(text[1..])
  }

  /** Sentences follow each other without gaps from `lo` on. */
  ghost predicate Chained(spans: seq<Span>, lo: nat, hi: nat) {
    && (forall i :: 0 <= i < |spans| ==> spans[i].lo < spans[i].hi)
    && (forall i :: 0 <= i < |spans| - 1 ==> spans[i].hi == spans[i + 1].lo)
    && (if spans == [] then lo == hi else spans[0].lo == lo && spans[|spans| - 1].hi == hi)
  }

  /**
   * One match of `_UNIT_RE`: all the non-terminators from the end of the last run of terminators on, at least one, and
   * then all the terminators after them, at least one unless the text ends.
   */
  ghost predicate SentenceMatch(text: string, m: Span) {
    exists stop: nat :: MatchWithBody(text, m, stop)
  }

  /** The match `m` has its non-terminators before `stop`. */
  ghost predicate MatchWithBody(text: string, m: Span, stop: nat) {
    && m.lo < stop <= m.hi <= |text|
    && (m.lo == 0 || IsTerminator(text[m.lo - 1]))
    && (forall k :: m.lo <= k < stop ==> !IsTerminator(text[k]))
    && (forall k :: stop <= k < m.hi ==> IsTerminator(text[k]))
    && (m.hi < |text| ==> stop < m.hi && !IsTerminator(text[m.hi]))
  }

  /** The longest match that starts at a non-terminator. */
  method MatchSentence(text: string, pos: nat) returns (stop: nat)
    requires pos < |text| && !IsTerminator(text[pos]) && (pos == 0 || IsTerminator(text[pos - 1]))
    ensures pos < stop <= |text| && SentenceMatch(text, Span(pos, stop))
    ensures stop < |text| ==> !IsTerminator(text[stop]) && IsTerminator(text[stop - 1])
  {
    stop := pos + 1;
    while stop < |text| && !IsTerminator(text[stop])
      invariant pos < stop <= |text|
      invariant forall k :: pos <= k < stop ==> !IsTerminator(text[k])
    {
      stop := stop + 1;
    }
    ghost var body := stop;
    while stop < |text| && IsTerminator(text[stop])
      invariant body <= stop <= |text|
      invariant forall k :: body <= k < stop ==> IsTerminator(text[k])
    {
      stop := stop + 1;
    }
    assert MatchWithBody(text, Span(pos, stop), body);
  }

  /** `_UNIT_RE.finditer`: a run of non-terminators with the run of terminators after it. */
  method FindSentences(text: string) returns (matches: seq<Span>)
    ensures Chained(matches, LeadingTerminators(text), |text|)
    ensures forall m :: m in matches ==> SentenceMatch(text, m)
  {
    var lead := LeadingTerminators(text);
    matches := [];
    var pos := 0;
    while pos < |text| && IsTerminator(text[pos])
      invariant 0 <= pos <= lead
    {
      pos := pos + 1;
    }
    assert pos == lead;
    while pos < |text|
      invariant lead <= pos <= |text| && Chained(matches, lead, pos)
      invariant pos < |text| ==> !IsTerminator(text[pos]) && (pos == 0 || IsTerminator(text[pos - 1]))
      invariant forall m :: m in matches ==> SentenceMatch(text, m)
    {
      var stop := MatchSentence(text, pos);
      matches := matches + [Span(pos, stop)];
      pos := stop;
    }
  }

  // ---- where units end ----

  type Switches = (nat, nat) -> seq<nat>

  ghost predicate SwitchesFit(text: string, switches: Switches) {
    forall a: nat, b: nat :: a <= b <= |text| ==> Boundaries(switches(a, b), a, b)
  }

  /** A match without the blanks at its ends. */
  ghost predicate Sentence(text: string, a: nat, b: nat) {
    a < b <= |text| && !IsSpace(text[a]) && !IsSpace(text[b - 1]) &&
    exists m: Span :: SentenceMatch(text, m) && m.lo <= a && b <= m.hi <= |text| &&
                      Blank(text, m.lo, a) && Blank(text, b, m.hi)
  }

  /** The unit lies in one sentence and goes across none of its switches. */
  ghost predicate InOneClause(text: string, switches: Switches, u: Span) {
    exists a: nat, b: nat :: Sentence(text, a, b) && a <= u.lo && u.hi <= b && Unswitched(switches(a, b), u)
  }

  /** A terminator at the end of `u` or after it, and before `v`. */
  ghost predicate TerminatorBetween(text: string, u: Span, v: Span) {
    exists k: nat :: u.hi - 1 <= k < v.lo <= |text| && IsTerminator(text[k])
  }

  ghost predicate SentenceSwitchBetween(text: string, switches: Switches, u: Span, v: Span) {
    exists a: nat, b: nat :: Sentence(text, a, b) && SwitchBetween(switches(a, b), u, v)
  }

  /** Why two neighbouring units are not one. */
  ghost predicate Cut(text: string, switches: Switches, u: Span, v: Span) {
    TerminatorBetween(text, u, v) || SentenceSwitchBetween(text, switches, u, v) || ChunkCut(text, u, v)
  }

  ghost predicate UnitsCut(text: string, switches: Switches, spans: seq<Span>) {
    && (forall u :: u in spans ==> InOneClause(text, switches, u))
    && (forall i :: 0 < i < |spans| ==> Cut(text, switches, spans[i - 1], spans[i]))
  }

  /** A cut by a terminator or a switch does not depend on where in the clause the second unit ends. */
  ghost predicate ClauseCut(text: string, switches: Switches, u: Span, v: Span) {
    TerminatorBetween(text, u, v) || SentenceSwitchBetween(text, switches, u, v)
  }

  lemma AppendCut(text: string, switches: Switches, spans: seq<Span>, chunks: seq<Span>, clause: Span)
    requires UnitsCut(text, switches, spans) && ChunksApart(text, chunks) && clause.hi <= |text|
    requires forall c :: c in chunks ==> clause.lo <= c.lo && c.hi <= clause.hi && c.lo <= c.hi
    requires InOneClause(text, switches, clause)
    requires spans != [] ==> ClauseCut(text, switches, spans[|spans| - 1], clause)
    ensures UnitsCut(text, switches, spans + chunks)
  {
    var all := spans + chunks;
    forall u | u in all ensures InOneClause(text, switches, u) {
      if u in chunks {
        PartOfClause(text, switches, clause, u);
      }
    }
    forall i | 0 < i < |all| ensures Cut(text, switches, all[i - 1], all[i]) {
      if i < |spans| {
        assert all[i - 1] == spans[i - 1] && all[i] == spans[i];
      } else if i == |spans| {
        assert chunks[0] in chunks;
        LaterStart(text, switches, spans[i - 1], clause, chunks[0]);
      } else {
        assert ChunkCut(text, chunks[i - |spans| - 1], chunks[i - |spans|]);
      }
    }
  }

  lemma PartOfClause(text: string, switches: Switches, clause: Span, u: Span)
    requires InOneClause(text, switches, clause) && clause.lo <= u.lo && u.hi <= clause.hi
    ensures InOneClause(text, switches, u)
  {
    var a: nat, b: nat :| Sentence(text, a, b) && a <= clause.lo && clause.hi <= b
                          && Unswitched(switches(a, b), clause);
    assert Unswitched(switches(a, b), u);
  }

  lemma LaterStart(text: string, switches: Switches, u: Span, clause: Span, v: Span)
    requires ClauseCut(text, switches, u, clause) && clause.lo <= v.lo <= |text|
    ensures ClauseCut(text, switches, u, v)
  {
    if !TerminatorBetween(text, u, clause) {
      var a: nat, b: nat :| Sentence(text, a, b) && SwitchBetween(switches(a, b), u, clause);
      assert SwitchBetween(switches(a, b), u, v);
    }
  }

  /** Inside a unit a terminator is followed only by terminators. */
  ghost predicate TerminatorsLast(text: string, u: Span) {
    u.hi <= |text| && forall k: nat :: u.lo <= k < u.hi - 1 && IsTerminator(text[k]) ==> IsTerminator(text[k + 1])
  }

  lemma ClauseTerminators(text: string, switches: Switches, u: Span)
    requires InOneClause(text, switches, u)
    ensures TerminatorsLast(text, u)
  {
    var a: nat, b: nat :| Sentence(text, a, b) && a <= u.lo && u.hi <= b && Unswitched(switches(a, b), u);
    var m: Span :| SentenceMatch(text, m) && m.lo <= a && b <= m.hi <= |text|
                   && Blank(text, m.lo, a) && Blank(text, b, m.hi);
    var stop: nat :| MatchWithBody(text, m, stop);
  }

  // ---- units ----

  /** What the units of a text are when something follows the leading terminators. */
  ghost predicate UnitState(text: string, switches: Switches, spans: seq<Span>, lead: nat, reached: nat) {
    Tiles(text, spans, lead, reached) && Short(spans) && UnitsCut(text, switches, spans)
  }

  /** The units of a text of blanks and terminators: chunks of the whole text. */
  ghost predicate TerminatorUnits(text: string, spans: seq<Span>) {
    && Tiles(text, spans, 0, |text|) && Short(spans) && ChunksApart(text, spans)
    && forall u :: u in spans ==> TerminatorsLast(text, u)
  }

  /**
   * `segment_units`; `switches(a, b)` finds the strong switches between two positions. Units are ordered, disjoint,
   * trimmed slices of at most 420 characters. They tile the text after its leading run of terminators or, when
   * nothing else is visible, the whole text. Inside a unit a terminator is followed only by terminators, and a switch
   * of its sentence is nowhere inside. Between neighbours lies a terminator or a switch of a sentence, or the next word
   * does not fit into the earlier one, or that one ends an over-long word.
   */
  method SegmentUnits(segment: Id, text: string, switches: Switches) returns (units: seq<TextUnit>)
    requires SwitchesFit(text, switches)
    ensures var lead := LeadingTerminators(text);
      if Blank(text, lead, |text|) then TerminatorUnits(text, SpansOf(units))
      else UnitState(text, switches, SpansOf(units), lead, |text|)
    ensures forall u :: u in units ==>
              u.segment == segment && u.start < u.end <= |text| && u.text == text[u.start..u.end]
    ensures forall u, k: nat :: u in units && u.start <= k < u.end - 1 && IsTerminator(text[k])
              ==> IsTerminator(text[k + 1])
  {
    var lead := LeadingTerminators(text);
    var spans: seq<Span> := [];
    var matches := FindSentences(text);
    for i := 0 to |matches|
      invariant UnitState(text, switches, spans, lead, if i < |matches| then matches[i].lo else |text|)
    {
      SentenceBounds(matches, lead, |text|, i);
      assert matches[i] in matches;
      spans := AppendSentence(text, spans, lead, matches[i], switches);
    }
    TilesEmpty(text, spans, lead, |text|);
    if spans == [] {
      spans := TerminatorText(text, lead);
    } else {
      CutsEndAtTerminators(text, switches, spans);
    }
    units := MakeUnits(segment, text, spans, if Blank(text, lead, |text|) then 0 else lead);
    UnitTerminators(text, units);
  }

  lemma CutsEndAtTerminators(text: string, switches: Switches, spans: seq<Span>)
    requires UnitsCut(text, switches, spans)
    ensures forall u :: u in spans ==> TerminatorsLast(text, u)
  {
    forall u | u in spans ensures TerminatorsLast(text, u) {
      ClauseTerminators(text, switches, u);
    }
  }

  lemma UnitTerminators(text: string, units: seq<TextUnit>)
    requires forall s :: s in SpansOf(units) ==> TerminatorsLast(text, s)
    requires forall u :: u in units ==> u.start < u.end <= |text|
    ensures forall u, k: nat :: u in units && u.start <= k < u.end - 1 && IsTerminator(text[k])
              ==> IsTerminator(text[k + 1])
  {
    forall u | u in units ensures TerminatorsLast(text, Span(u.start, u.end)) {
      var i :| 0 <= i < |units| && units[i] == u;
      assert SpansOf(units)[i] == Span(u.start, u.end);
    }
  }

  /** The last branch of `segment_units`: no sentence has anything visible, so the trimmed text is chunked. */
  method TerminatorText(text: string, ghost lead: nat) returns (spans: seq<Span>)
    requires lead <= |text| && Blank(text, lead, |text|) && forall k :: 0 <= k < lead ==> IsTerminator(text[k])
    ensures TerminatorUnits(text, spans)
  {
    spans := [];
    var trimmed := TrimmedSpan(text, 0, |text|);
    if trimmed.Some? {
      var (a, b) := (trimmed.value.lo, trimmed.value.hi);
      spans := ChunkSpan(text, a, b);
      TilesOrdered(text, spans, a, b);
      WidenLeft(text, spans, 0, a, b);
      WidenRight(text, spans, 0, b, |text|);
    }
  }

  /** Non-empty exact slices of the segments they name. */
  ghost predicate UnitsAreSlices(units: seq<TextUnit>, segments: seq<Id>, text: Id -> string) {
    forall u :: u in units ==>
      && u.segment in segments
      && u.start < u.end <= |text(u.segment)| && u.text == text(u.segment)[u.start..u.end]
  }

  /** `ordered_units`: the units of all segments, in transcript order, each a non-empty exact slice of its segment. */
  method OrderedUnits(segments: seq<Id>, text: Id -> string, switches: (Id, nat, nat) -> seq<nat>)
    returns (units: seq<TextUnit>)
    requires forall s, a: nat, b: nat :: s in segments && a <= b <= |text(s)| ==> Boundaries(switches(s, a, b), a, b)
    ensures UnitsAreSlices(units, segments, text)
    ensures Distinct(segments) ==> Disjoint(units)
  {
    units := [];
    for i := 0 to |segments|
      invariant UnitsAreSlices(units, segments[..i], text)
      invariant Distinct(segments) ==> Disjoint(units)
    {
      var s := segments[i];
      var found := SegmentUnits(s, text(s), (a, b) => switches(s, a, b));
      TiledIsDisjoint(text(s), found);
      if Distinct(segments) {
        DisjointConcat(units, found, s);
      }
      units := units + found;
    }
    assert segments[..|segments|] == segments;
  }

  /** Units of one segment follow one another without overlapping. */
  ghost predicate Disjoint(units: seq<TextUnit>) {
    forall i, j :: 0 <= i < j < |units| && units[i].segment == units[j].segment ==> units[i].end <= units[j].start
  }

  lemma TiledIsDisjoint(text: string, units: seq<TextUnit>)
    requires exists lo: nat :: Tiles(text, SpansOf(units), lo, |text|)
    ensures Disjoint(units)
  {
    var lo: nat :| Tiles(text, SpansOf(units), lo, |text|);
    var spans := SpansOf(units);
    TilesMeaning(text, spans, lo, |text|);
    forall i, j | 0 <= i < j < |units| ensures units[i].end <= units[j].start {
      assert spans[i].hi <= spans[j].lo;
    }
  }

  lemma DisjointConcat(units: seq<TextUnit>, found: seq<TextUnit>, segment: Id)
    requires Disjoint(units) && Disjoint(found)
    requires (forall u :: u in units ==> u.segment != segment) && forall u :: u in found ==> u.segment == segment
    ensures Disjoint(units + found)
  {
  }

  method MakeUnits(segment: Id, text: string, spans: seq<Span>, ghost lo: nat) returns (units: seq<TextUnit>)
    requires Tiles(text, spans, lo, |text|)
    ensures SpansOf(units) == spans
    ensures forall u :: u in units ==>
              u.segment == segment && u.start < u.end <= |text| && u.text == text[u.start..u.end]
  {
    TilesOrdered(text, spans, lo, |text|);
    units := seq(|spans|, i requires 0 <= i < |spans| && spans[i].lo <= spans[i].hi <= |text| =>
                   TextUnit(segment, spans[i].lo, spans[i].hi, text[spans[i].lo..spans[i].hi]));
  }

  function SpansOf(units: seq<TextUnit>): seq<Span> {
    seq(|units|, i requires 0 <= i < |units| => Span(units[i].start, units[i].end))
  }

  lemma {:induction false} SentenceBounds(matches: seq<Span>, lo: nat, hi: nat, i: nat)
    requires Chained(matches, lo, hi) && i < |matches|
    ensures lo <= matches[i].lo < matches[i].hi <= hi
    ensures i + 1 < |matches| ==> matches[i].hi == matches[i + 1].lo
    ensures i + 1 == |matches| ==> matches[i].hi == hi
  {
    ChainFromStart(matches, lo, hi, i);
    ChainToEnd(matches, lo, hi, i);
  }

  lemma {:induction false} ChainFromStart(matches: seq<Span>, lo: nat, hi: nat, i: nat)
    requires Chained(matches, lo, hi) && i < |matches|
    ensures lo <= matches[i].lo
  {
    if i > 0 {
      ChainFromStart(matches, lo, hi, i - 1);
      assert matches[i - 1].hi == matches[(i - 1) + 1].lo;
    }
  }

  lemma {:induction false} ChainToEnd(matches: seq<Span>, lo: nat, hi: nat, i: nat)
    requires Chained(matches, lo, hi) && i < |matches|
    ensures matches[i].hi <= hi
    decreases |matches| - i
  {
    if i < |matches| - 1 {
      ChainToEnd(matches, lo, hi, i + 1);
    }
  }

  /** One sentence: trim it, split it into clauses, chunk every clause. */
  method AppendSentence(text: string, spans: seq<Span>, lead: nat, sentence: Span, switches: Switches)
    returns (r: seq<Span>)
    requires SwitchesFit(text, switches) && SentenceMatch(text, sentence) && sentence.lo <= sentence.hi <= |text|
    requires UnitState(text, switches, spans, lead, sentence.lo)
    ensures UnitState(text, switches, r, lead, sentence.hi)
  {
    r := spans;
    var trimmed := TrimmedSpan(text, sentence.lo, sentence.hi);
    if trimmed.None? {
      WidenUnits(text, switches, r, lead, sentence.lo, sentence.hi);
      return;
    }
    var a, b := trimmed.value.lo, trimmed.value.hi;
    assert Sentence(text, a, b);
    WidenUnits(text, switches, r, lead, sentence.lo, a);
    var clauses := SplitStrongSwitches(text, a, b, switches(a, b));
    r := AppendClauses(text, r, lead, sentence, a, b, clauses, switches);
    WidenUnits(text, switches, r, lead, b, sentence.hi);
  }

  lemma WidenUnits(text: string, switches: Switches, spans: seq<Span>, lead: nat, reached: nat, hi: nat)
    requires UnitState(text, switches, spans, lead, reached)
    requires reached <= hi <= |text| && Blank(text, reached, hi)
    ensures UnitState(text, switches, spans, lead, hi)
  {
    WidenRight(text, spans, lead, reached, hi);
  }

  method AppendClauses(text: string, spans: seq<Span>, ghost lead: nat, ghost sentence: Span, ghost a: nat,
                       ghost b: nat, clauses: seq<Span>, ghost switches: Switches)
    returns (r: seq<Span>)
    requires SentenceMatch(text, sentence) && sentence.lo <= a && Sentence(text, a, b)
    requires UnitState(text, switches, spans, lead, sentence.lo) && UnitState(text, switches, spans, lead, a)
    requires Tiles(text, clauses, a, b) && CutAtSwitches(switches(a, b), clauses)
    ensures UnitState(text, switches, r, lead, b)
  {
    r := spans;
    for i := 0 to |clauses|
      invariant UnitState(text, switches, r, lead, Reached(clauses, a, i))
      invariant i == 0 ==> r == spans
    {
      GapIsBlank(text, clauses, a, b, i);
      ClauseComes(text, switches, spans, r, lead, sentence, a, b, clauses, i);
      r := AppendClause(text, r, lead, Reached(clauses, a, i), clauses[i], switches);
    }
    TailIsBlank(text, clauses, a, b);
    WidenUnits(text, switches, r, lead, Reached(clauses, a, |clauses|), b);
  }

  /** The next clause of a sentence lies in it, and a terminator or a switch comes before it. */
  lemma ClauseComes(text: string, switches: Switches, spans: seq<Span>, r: seq<Span>, lead: nat, sentence: Span,
                    a: nat, b: nat, clauses: seq<Span>, i: nat)
    requires SentenceMatch(text, sentence) && sentence.lo <= a && Sentence(text, a, b)
    requires Tiles(text, spans, lead, sentence.lo) && CutAtSwitches(switches(a, b), clauses)
    requires i < |clauses| && Trimmed(text, clauses[i], a, b) && Tiles(text, r, lead, Reached(clauses, a, i))
    requires Reached(clauses, a, i) <= clauses[i].lo && (i == 0 ==> r == spans)
    ensures InOneClause(text, switches, clauses[i])
    ensures r != [] ==> ClauseCut(text, switches, r[|r| - 1], clauses[i])
  {
    assert clauses[i] in clauses;
    if r != [] {
      if i == 0 {
        TilesOrdered(text, spans, lead, sentence.lo);
        var stop: nat :| MatchWithBody(text, sentence, stop);
        assert spans[|spans| - 1].hi - 1 <= sentence.lo - 1 < clauses[i].lo;
      } else {
        assert SwitchBetween(switches(a, b), clauses[i - 1], clauses[i]);
        assert SwitchBetween(switches(a, b), r[|r| - 1], clauses[i]);
      }
    }
  }

  method AppendClause(text: string, spans: seq<Span>, ghost lead: nat, ghost reached: nat, clause: Span,
                      ghost switches: Switches)
    returns (r: seq<Span>)
    requires UnitState(text, switches, spans, lead, reached) && InOneClause(text, switches, clause)
    requires reached <= clause.lo && Trimmed(text, clause, clause.lo, clause.hi) && Blank(text, reached, clause.lo)
    requires spans != [] ==> ClauseCut(text, switches, spans[|spans| - 1], clause)
    ensures UnitState(text, switches, r, lead, clause.hi)
  {
    var chunks := ChunkSpan(text, clause.lo, clause.hi);
    TilesOrdered(text, chunks, clause.lo, clause.hi);
    AppendCut(text, switches, spans, chunks, clause);
    WidenRight(text, spans, lead, reached, clause.lo);
    TilesConcat(text, spans, chunks, lead, clause.lo, clause.hi);
    r := spans + chunks;
  }
}
