/**
 * The backward search for the last Ogg page (`audio_duration.py`, `_probe_ogg`; page headers as in section 6 of
 * RFC 3533): "OggS", then the granule position as eight little-endian bytes at offset 6.
 */
module OggPages {
  import opened VariableSizeIntegers

  const MARKER: seq<Byte> := [0x4f, 0x67, 0x67, 0x53]
  const ALL_ONES := 0xFFFF_FFFF_FFFF_FFFF

  predicate MarkerAt(tail: seq<Byte>, p: int) {
    0 <= p && p + 4 <= |tail|
    && tail[p] == MARKER[0] && tail[p + 1] == MARKER[1] && tail[p + 2] == MARKER[2] && tail[p + 3] == MARKER[3]
  }

  function Little(bytes: seq<Byte>): nat {
    if bytes == [] then 0 else bytes[0] + 256 * Little(bytes[1..])
  }

  function LittleBytes(n: nat, width: nat): (bytes: seq<Byte>)
    ensures |bytes| == width
  {
    if width == 0 then [] else [n % 256] + LittleBytes(n / 256, width - 1)
  }

  /** The unpacked granule position is the number the writer stored. */
  lemma {:induction false} GranuleRoundTrip(n: nat, width: nat)
    requires n < Pow2(8 * width)
    ensures Little(LittleBytes(n, width)) == n
  {
    if width > 0 {
      Pow2Add(8 * (width - 1), 8);
      Pow2Table();
      QuotientBelow(n, Pow2(8 * (width - 1)));
      GranuleRoundTrip(n / 256, width - 1);
      assert LittleBytes(n, width)[1..] == LittleBytes(n / 256, width - 1);
    }
  }

  lemma QuotientBelow(n: nat, m: nat)
    requires n < m * 256
    ensures n / 256 < m
  {
  }

  function Granule(tail: seq<Byte>, p: nat): nat
    requires p + 14 <= |tail|
  {
    Little(tail[p + 6..p + 14])
  }

  /** A page whose header is complete up to the granule position, which is neither zero nor "none". */
  predicate ValidPage(tail: seq<Byte>, p: int) {
    MarkerAt(tail, p) && p + 14 <= |tail| && 0 < Granule(tail, p) && Granule(tail, p) != ALL_ONES
  }

  /** A page as a writer lays it out: the capture pattern, two bytes, and the granule position as eight bytes. */
  lemma WrittenPageIsRead(tail: seq<Byte>, p: nat, n: nat)
    requires p + 14 <= |tail| && n < Pow2(64) && tail[p..p + 4] == [0x4f, 0x67, 0x67, 0x53]
    requires tail[p + 6..p + 14] == LittleBytes(n, 8)
    ensures Granule(tail, p) == n && (ValidPage(tail, p) <==> n != 0 && n != 0xFFFF_FFFF_FFFF_FFFF)
  {
    GranuleRoundTrip(n, 8);
    forall k | 0 <= k < 4 ensures tail[p + k] == MARKER[k] {
      assert tail[p..p + 4][k] == tail[p + k];
    }
  }

  /** `tail.rfind(b"OggS", 0, end)` for an `end` inside the buffer; -1 when there is none. */
  function RFind(tail: seq<Byte>, end: nat): (p: int)
    requires end <= |tail|
    ensures p == -1 || 0 <= p <= end - 4
  {
    if end < 4 then -1 else if MarkerAt(tail, end - 4) then end - 4 else RFind(tail, end - 1)
  }

  lemma {:induction false} RFindIsLast(tail: seq<Byte>, end: nat)
    requires end <= |tail|
    ensures var p := RFind(tail, end); p >= 0 ==> MarkerAt(tail, p) && p + 4 <= end
    ensures forall q :: RFind(tail, end) < q && q + 4 <= end ==> !MarkerAt(tail, q)
  {
    if end >= 4 && !MarkerAt(tail, end - 4) {
      RFindIsLast(tail, end - 1);
    }
  }

  lemma RFindIs(tail: seq<Byte>, end: nat, p: nat)
    requires end <= |tail| && MarkerAt(tail, p) && p + 4 <= end
    requires forall q :: p < q && q + 4 <= end ==> !MarkerAt(tail, q)
    ensures RFind(tail, end) == p
  {
    RFindIsLast(tail, end);
  }

  /** How Python reads a slice end: negative ends count from the end of the buffer. */
  function SliceEnd(length: nat, end: int): (e: nat)
    ensures e <= length
  {
    if end >= length then length
    else if end >= 0 then end
    else if end + length >= 0 then end + length
    else 0
  }

  // ---- the loop ----

  /** Where the loop is: it ended with a granule position (-1 for none), or it goes on from `pos`. */
  datatype Outcome = Ended(granule: int) | At(pos: int)

  /** One turn of the loop. */
  function Turn(tail: seq<Byte>, pos: int): Outcome {
    var p := RFind(tail, SliceEnd(|tail|, pos));
    if p == -1 then Ended(-1)
    else if ValidPage(tail, p) then Ended(Granule(tail, p))
    else At(p - 1)
  }

  function Turns(tail: seq<Byte>, pos: int, n: nat): Outcome
    decreases n
  {
    if n == 0 then At(pos)
    else
      match Turn(tail, pos)
      case Ended(g) => Ended(g)
      case At(next) => Turns(tail, next, n - 1)
  }

  lemma {:induction false} TurnsAdd(tail: seq<Byte>, pos: int, n: nat, m: nat)
    ensures Turns(tail, pos, n + m) ==
            if Turns(tail, pos, n).Ended? then Turns(tail, pos, n) else Turns(tail, Turns(tail, pos, n).pos, m)
    decreases n
  {
    if n > 0 && Turn(tail, pos).At? {
      TurnsAdd(tail, Turn(tail, pos).pos, n - 1, m);
    }
  }

  // ---- one pass over the markers ----

  /** One descent through the markers before `end`; a page at the very start that is not valid leads to -1. */
  function Pass(tail: seq<Byte>, end: nat): Outcome
    requires end <= |tail|
    decreases end
  {
    var p := RFind(tail, end);
    if p == -1 then Ended(-1)
    else if ValidPage(tail, p) then Ended(Granule(tail, p))
    else if p == 0 then At(-1)
    else Pass(tail, p - 1)
  }

  /**
   * The markers that a pass looks at. The next search ends one byte before the marker it stands on, so it cannot see
   * a marker that ends exactly there: a marker is seen unless a seen one starts four bytes after it.
   */
  predicate Seen(tail: seq<Byte>, end: nat, p: int)
    decreases if p <= |tail| then |tail| - p else 0
  {
    MarkerAt(tail, p) && p + 4 <= end && !(p + 8 <= end && Seen(tail, end, p + 4))
  }

  /** The valid pages that a pass looks at. */
  ghost function SeenPages(tail: seq<Byte>, end: nat): set<int> {
    set p | 0 <= p < |tail| && Seen(tail, end, p) && ValidPage(tail, p)
  }

  /** All valid pages. */
  ghost function Pages(tail: seq<Byte>): set<int> {
    set p | 0 <= p < |tail| && ValidPage(tail, p)
  }

  /** `g` is the granule position of the last of these pages; -1 when there is none. */
  ghost predicate OfLast(tail: seq<Byte>, pages: set<int>, g: int)
    requires pages <= Pages(tail)
  {
    if pages == {} then g == -1
    else exists p :: p in pages && (forall q :: q in pages ==> q <= p) && g == Granule(tail, p)
  }

  /** The pass sees no valid page and gets to one at the very start of the buffer. */
  ghost predicate WrapsAround(tail: seq<Byte>, end: nat) {
    Seen(tail, end, 0) && SeenPages(tail, end) == {}
  }

  /** The pass ends with the last valid page it sees, or with -1 when it sees none. */
  ghost predicate Finds(tail: seq<Byte>, end: nat, g: int) {
    OfLast(tail, SeenPages(tail, end), g)
  }

  /** Two markers never overlap. */
  lemma MarkersDontOverlap(tail: seq<Byte>, p: int, q: int)
    requires MarkerAt(tail, p) && MarkerAt(tail, q) && q < p
    ensures q <= p - 4
  {
    assert p != q + 1 && p != q + 2 && p != q + 3;
  }

  /** Stepping back from the last marker leaves what is seen before it as it was. */
  lemma {:induction false} SeenBefore(tail: seq<Byte>, end: nat, p: int, q: int)
    requires end <= |tail| && MarkerAt(tail, p) && p + 4 <= end && 1 <= p && q < p
    requires forall r :: p < r && r + 4 <= end ==> !MarkerAt(tail, r)
    ensures Seen(tail, end, q) <==> Seen(tail, p - 1, q)
    decreases p - q
  {
    if MarkerAt(tail, q) {
      MarkersDontOverlap(tail, p, q);
      if q == p - 4 {
        assert Seen(tail, end, p);
      } else {
        SeenBefore(tail, end, p, q + 4);
      }
    }
  }

  lemma StepBack(tail: seq<Byte>, end: nat)
    requires end <= |tail| && RFind(tail, end) >= 1 && !ValidPage(tail, RFind(tail, end))
    ensures var p := RFind(tail, end);
      && p - 1 < end
      && SeenPages(tail, end) == SeenPages(tail, p - 1)
      && (Seen(tail, end, 0) <==> Seen(tail, p - 1, 0))
  {
    var p := RFind(tail, end);
    RFindIsLast(tail, end);
    forall q ensures q in SeenPages(tail, end) <==> q in SeenPages(tail, p - 1) {
      if q < p {
        SeenBefore(tail, end, p, q);
      }
    }
    SeenBefore(tail, end, p, 0);
  }

  /** What a pass returns, for every buffer. */
  lemma {:induction false} PassMeaning(tail: seq<Byte>, end: nat)
    requires end <= |tail|
    ensures Pass(tail, end) == At(-1) <==> WrapsAround(tail, end)
    ensures !WrapsAround(tail, end) ==> Pass(tail, end).Ended? && Finds(tail, end, Pass(tail, end).granule)
    decreases end
  {
    var p := RFind(tail, end);
    RFindIsLast(tail, end);
    if p >= 1 && !ValidPage(tail, p) {
      StepBack(tail, end);
      PassMeaning(tail, p - 1);
    } else {
      LastStop(tail, end);
    }
  }

  lemma LastStop(tail: seq<Byte>, end: nat)
    requires end <= |tail| && (RFind(tail, end) <= 0 || ValidPage(tail, RFind(tail, end)))
    ensures Pass(tail, end) == At(-1) <==> WrapsAround(tail, end)
    ensures !WrapsAround(tail, end) ==> Pass(tail, end).Ended? && Finds(tail, end, Pass(tail, end).granule)
  {
    var p := RFind(tail, end);
    RFindIsLast(tail, end);
    assert forall q :: Seen(tail, end, q) ==> q <= p;
    if p >= 0 {
      assert Seen(tail, end, p);
      if ValidPage(tail, p) {
        assert p in SeenPages(tail, end);
      }
    }
  }

  /** Some number of turns is one pass. */
  lemma {:induction false} Descend(tail: seq<Byte>, pos: int) returns (n: nat)
    ensures n > 0 && Turns(tail, pos, n) == Pass(tail, SliceEnd(|tail|, pos))
    decreases SliceEnd(|tail|, pos)
  {
    var end := SliceEnd(|tail|, pos);
    var p := RFind(tail, end);
    OneTurn(tail, pos);
    RFindIsLast(tail, end);
    if p >= 1 && !ValidPage(tail, p) {
      n := Descend(tail, p - 1);
      TurnsAdd(tail, pos, 1, n);
      n := n + 1;
    } else {
      n := 1;
    }
  }

  lemma OneTurn(tail: seq<Byte>, pos: int)
    ensures Turns(tail, pos, 1) == Turn(tail, pos)
  {
    if Turn(tail, pos).At? {
      assert Turns(tail, Turn(tail, pos).pos, 0) == Turn(tail, pos);
    }
  }

  // ---- when the loop ends ----

  /** Where the second pass starts: the search end -1 stands for the last byte of the buffer. */
  function SecondEnd(tail: seq<Byte>): nat {
    SliceEnd(|tail|, -1)
  }

  /** Both passes lead back to the end of the buffer, so every turn leads to another one. */
  lemma {:induction false} NeverEnds(tail: seq<Byte>, pos: int, n: nat)
    requires WrapsAround(tail, SliceEnd(|tail|, pos)) && WrapsAround(tail, SecondEnd(tail))
    ensures Turns(tail, pos, n).At?
    decreases n
  {
    if n > 0 {
      NextTurn(tail, pos);
      NeverEnds(tail, Turn(tail, pos).pos, n - 1);
    }
  }

  lemma NextTurn(tail: seq<Byte>, pos: int)
    requires WrapsAround(tail, SliceEnd(|tail|, pos)) && WrapsAround(tail, SecondEnd(tail))
    ensures Turn(tail, pos).At? && WrapsAround(tail, SliceEnd(|tail|, Turn(tail, pos).pos))
  {
    var end := SliceEnd(|tail|, pos);
    var p := RFind(tail, end);
    RFindIsLast(tail, end);
    assert Seen(tail, end, p) && p !in SeenPages(tail, end);
    if p >= 1 {
      StepBack(tail, end);
    }
  }

  ghost predicate Halts(tail: seq<Byte>) {
    exists n: nat :: Turns(tail, |tail|, n).Ended?
  }

  /** The search ends if and only if one of its first two passes does not lead back to the end of the buffer. */
  lemma HaltsExactly(tail: seq<Byte>)
    ensures Halts(tail) <==> !WrapsAround(tail, |tail|) || !WrapsAround(tail, SecondEnd(tail))
  {
    if WrapsAround(tail, |tail|) && WrapsAround(tail, SecondEnd(tail)) {
      forall n: nat ensures Turns(tail, |tail|, n).At? {
        NeverEnds(tail, |tail|, n);
      }
    } else {
      var n, g := EndsWithLastSeen(tail);
      assert Turns(tail, |tail|, n).Ended?;
    }
  }

  /** What the search ends with: what its first pass finds or, if that one wraps around, what the second finds. */
  ghost predicate Result(tail: seq<Byte>, g: int) {
    if !WrapsAround(tail, |tail|) then Finds(tail, |tail|, g) else Finds(tail, SecondEnd(tail), g)
  }

  /** Whenever the search ends, it ends with the last valid page among those that pass sees. */
  lemma EndsWithLastSeen(tail: seq<Byte>) returns (n: nat, g: int)
    requires !WrapsAround(tail, |tail|) || !WrapsAround(tail, SecondEnd(tail))
    ensures Turns(tail, |tail|, n) == Ended(g) && Result(tail, g)
  {
    n := Descend(tail, |tail|);
    PassMeaning(tail, |tail|);
    if WrapsAround(tail, |tail|) {
      var m := Descend(tail, -1);
      TurnsAdd(tail, |tail|, n, m);
      PassMeaning(tail, SecondEnd(tail));
      n := n + m;
    }
    g := Turns(tail, |tail|, n).granule;
  }

  // ---- pages that are not packed against each other ----

  /**
   * No page starts exactly four bytes after another one; headers are 27 bytes long, so real pages are never so close.
   */
  ghost predicate PagesApart(tail: seq<Byte>) {
    forall p :: MarkerAt(tail, p) ==> !MarkerAt(tail, p + 4)
  }

  /** A page at the very start sends the search back to the end of a buffer of five bytes or more. */
  predicate StartsWithPage(tail: seq<Byte>) {
    MarkerAt(tail, 0) && |tail| >= 5
  }

  lemma ApartSeesAll(tail: seq<Byte>, end: nat)
    requires PagesApart(tail) && |tail| - 1 <= end <= |tail|
    ensures Seen(tail, end, 0) <==> MarkerAt(tail, 0) && 4 <= end
    ensures SeenPages(tail, end) == Pages(tail)
  {
    forall p ensures p in SeenPages(tail, end) <==> p in Pages(tail) {
      if ValidPage(tail, p) {
        assert Seen(tail, end, p);
      }
    }
  }

  /**
   * For pages that are not packed against each other, the search ends if and only if the buffer does not start with
   * a page or contains a valid one, and then it ends with the last valid page.
   */
  lemma ApartHaltsExactly(tail: seq<Byte>)
    requires PagesApart(tail)
    ensures Halts(tail) <==> !StartsWithPage(tail) || Pages(tail) != {}
    ensures forall g :: Result(tail, g) <==> OfLast(tail, Pages(tail), g)
  {
    ApartSeesAll(tail, |tail|);
    ApartSeesAll(tail, SecondEnd(tail));
    HaltsExactly(tail);
  }

  /** A search that will end with `g` ends with it now or is one turn nearer to it. */
  lemma OnTrack(tail: seq<Byte>, pos: int, left: nat, g: int)
    requires Turns(tail, pos, left) == Ended(g)
    ensures left > 0
    ensures var p := RFind(tail, SliceEnd(|tail|, pos));
      && (p == -1 ==> g == -1)
      && (p >= 0 && ValidPage(tail, p) ==> g == Granule(tail, p))
      && (p >= 0 && !ValidPage(tail, p) ==> Turns(tail, p - 1, left - 1) == Ended(g))
  {
  }

  /** The test inside the loop; -1 when the page at a marker is not valid. */
  method PageGranule(tail: seq<Byte>, pos: nat) returns (g: int)
    requires MarkerAt(tail, pos)
    ensures g == if ValidPage(tail, pos) then Granule(tail, pos) else -1
    ensures g == -1 <==> !ValidPage(tail, pos)
  {
    if pos + 14 <= |tail| {
      g := Granule(tail, pos);
      if g != ALL_ONES && g > 0 {
        return g;
      }
    }
    return -1;
  }

  /** The loop of `_probe_ogg`, for exactly the buffers on which it ends. */
  method FindLastGranule(tail: seq<Byte>) returns (granule: int)
    requires !WrapsAround(tail, |tail|) || !WrapsAround(tail, SecondEnd(tail))
    ensures Result(tail, granule)
    ensures PagesApart(tail) ==> OfLast(tail, Pages(tail), granule)
  {
    ghost var left, goal := EndsWithLastSeen(tail);
    granule := Search(tail, left, goal);
    if PagesApart(tail) {
      ApartHaltsExactly(tail);
    }
  }

  method Search(tail: seq<Byte>, ghost turns: nat, ghost goal: int) returns (granule: int)
    requires Turns(tail, |tail|, turns) == Ended(goal)
    ensures granule == goal
  {
    granule := -1;
    var pos := |tail|;
    ghost var left := turns;
    while true
      invariant Turns(tail, pos, left) == Ended(goal)
      invariant granule == -1
      decreases left
    {
      var done;
      done, granule, pos := OneStep(tail, pos, left, goal);
      if done {
        break;
      }
      left := left - 1;
    }
  }

  /** The body of the loop: it finds the goal or goes on from a place that is nearer to it. */
  method OneStep(tail: seq<Byte>, pos: int, ghost left: nat, ghost goal: int)
    returns (done: bool, granule: int, next: int)
    requires Turns(tail, pos, left) == Ended(goal)
    ensures left > 0
    ensures done ==> granule == goal
    ensures !done ==> granule == -1 && Turns(tail, next, left - 1) == Ended(goal)
  {
    OnTrack(tail, pos, left, goal);
    RFindIsLast(tail, SliceEnd(|tail|, pos));
    next := RFind(tail, SliceEnd(|tail|, pos));
    if next == -1 {
      return true, -1, next;
    }
    granule := PageGranule(tail, next);
    if granule != -1 {
      return true, granule, next;
    }
    return false, -1, next - 1;
  }

  // ---- buffers on which the search goes wrong ----

  /** Five bytes on which the search never ends: a page marker and one more byte. */
  lemma ShortestEndless()
    ensures !Halts(MARKER + [0])
  {
    var tail := MARKER + [0];
    assert MarkerAt(tail, 0);
    HaltsExactly(tail);
  }

  /** A valid page is missed when the four bytes after its marker look like another marker. */
  lemma AdjacentMarkerHidesPage()
    ensures var tail := [0] + MARKER + MARKER + [0, 0, 0, 0, 0, 0];
      ValidPage(tail, 1) && Turns(tail, |tail|, 2) == Ended(-1)
  {
    var tail: seq<Byte> := [0, 0x4f, 0x67, 0x67, 0x53, 0x4f, 0x67, 0x67, 0x53, 0, 0, 0, 0, 0, 0];
    assert tail == [0] + MARKER + MARKER + [0, 0, 0, 0, 0, 0];
    assert tail[7..15] == [0x67, 0x53, 0, 0, 0, 0, 0, 0];
    var high: seq<Byte> := [0x53, 0, 0, 0, 0, 0, 0];
    assert Little([0x67] + high) == 0x67 + 256 * Little(high);
    assert [0x67] + high == tail[7..15];
    assert Little(high) == 0x53 by { HighIsSmall(); }
    FirstTurn(tail);
  }

  lemma HighIsSmall()
    ensures Little([0x53, 0, 0, 0, 0, 0, 0]) == 0x53
  {
    var z: seq<Byte> := [0, 0, 0, 0, 0, 0];
    assert [0x53] + z == [0x53, 0, 0, 0, 0, 0, 0];
    Zeros(z);
    assert Little([0x53] + z) == 0x53 + 256 * Little(z);
  }

  lemma {:induction false} Zeros(z: seq<Byte>)
    requires forall i :: 0 <= i < |z| ==> z[i] == 0
    ensures Little(z) == 0
  {
    if z != [] {
      Zeros(z[1..]);
    }
  }

  lemma FirstTurn(tail: seq<Byte>)
    requires tail == [0, 0x4f, 0x67, 0x67, 0x53, 0x4f, 0x67, 0x67, 0x53, 0, 0, 0, 0, 0, 0]
    ensures Turns(tail, 15, 2) == Ended(-1)
  {
    forall p | MarkerAt(tail, p) ensures p == 1 || p == 5 {
      assert tail[p] == 0x4f;
    }
    assert MarkerAt(tail, 5);
    RFindIs(tail, 15, 5);
    assert Turn(tail, 15) == At(4);
    assert RFind(tail, 4) == -1;
    assert Turn(tail, 4) == Ended(-1);
    assert Turns(tail, 4, 1) == Ended(-1);
  }

  /**
   * An empty page at the start and a valid page at 14 that the marker at 18 hides: the search never ends, although
   * the buffer contains a valid page.
   */
  lemma HiddenPageEndless()
    ensures var tail := MARKER + [0, 0, 0, 0, 0, 0, 0, 0, 0, 0] + MARKER + MARKER + [0, 0, 0, 0, 0, 0];
      ValidPage(tail, 14) && !Halts(tail)
  {
    var tail := MARKER + [0, 0, 0, 0, 0, 0, 0, 0, 0, 0] + MARKER + MARKER + [0, 0, 0, 0, 0, 0];
    assert tail == [0x4f, 0x67, 0x67, 0x53, 0, 0, 0, 0, 0, 0, 0, 0, 0, 0, 0x4f, 0x67, 0x67, 0x53, 0x4f, 0x67, 0x67,
                    0x53, 0, 0, 0, 0, 0, 0];
    assert MarkerAt(tail, 0) && MarkerAt(tail, 14) && MarkerAt(tail, 18);
    HiddenGranule(tail);
    assert tail[6..14] == [0, 0, 0, 0, 0, 0, 0, 0];
    Zeros(tail[6..14]);
    OnlyThreeMarkers(tail);
    HidesItsPage(tail, 28);
    HidesItsPage(tail, 27);
    HaltsExactly(tail);
  }

  lemma OnlyThreeMarkers(tail: seq<Byte>)
    requires tail == [0x4f, 0x67, 0x67, 0x53, 0, 0, 0, 0, 0, 0, 0, 0, 0, 0, 0x4f, 0x67, 0x67, 0x53, 0x4f, 0x67, 0x67,
                      0x53, 0, 0, 0, 0, 0, 0]
    ensures forall p :: MarkerAt(tail, p) ==> p == 0 || p == 14 || p == 18
  {
    forall p | MarkerAt(tail, p) ensures p == 0 || p == 14 || p == 18 {
      assert tail[p] == 0x4f;
    }
  }

  /** A pass sees the empty pages at 0 and 18 and not the valid one between them. */
  lemma HidesItsPage(tail: seq<Byte>, end: nat)
    requires |tail| == 28 && 27 <= end <= 28 && MarkerAt(tail, 0) && MarkerAt(tail, 14) && MarkerAt(tail, 18)
    requires (forall p :: MarkerAt(tail, p) ==> p == 0 || p == 14 || p == 18) && !ValidPage(tail, 0)
    ensures WrapsAround(tail, end)
  {
    assert Seen(tail, end, 18) && !Seen(tail, end, 14) && Seen(tail, end, 0);
  }

  lemma HiddenGranule(tail: seq<Byte>)
    requires |tail| == 28 && tail[20..28] == [0x67, 0x53, 0, 0, 0, 0, 0, 0] && MarkerAt(tail, 14)
    ensures ValidPage(tail, 14)
  {
    var high: seq<Byte> := [0x53, 0, 0, 0, 0, 0, 0];
    assert [0x67] + high == tail[20..28];
    assert Little([0x67] + high) == 0x67 + 256 * Little(high);
    HighIsSmall();
  }
}
