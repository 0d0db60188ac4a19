/**
 * Cutting a recording into transcribable chunks (`chunking.py`, `build_smart_ranges`, `apply_edge_padding`). Positions
 * are sample numbers; durations are exact rationals of seconds.
 */
module SpeechChunks {
  import opened Common
  import opened StableSort

  datatype Region = Region(start: int, end: int)

  /** What `SpeechRegion` accepts. */
  predicate ValidRegion(r: Region) {
    0 <= r.start < r.end
  }

  predicate StartsFirst(a: Region, b: Region) {
    a.start <= b.start
  }

  function Seconds(samples: int, rate: int): real
    requires rate > 0
  {
    samples as real / rate as real
  }

  /** `int(seconds * sample_rate)` for a non-negative number of seconds. */
  function Samples(seconds: real, rate: int): int {
    (seconds * rate as real).Floor
  }

  /** A number of seconds as a number of samples. */
  function Limit(seconds: real, rate: int): real {
    seconds * rate as real
  }

  /** `samples` take at most `limit` seconds. */
  predicate AtMost(samples: int, limit: real, rate: int) {
    samples as real <= Limit(limit, rate)
  }

  /** Comparing seconds is comparing samples. */
  lemma SecondsAtMost(n: int, rate: int, limit: real)
    requires rate > 0
    ensures Seconds(n, rate) <= limit <==> AtMost(n, limit, rate)
    ensures AtMost(n, limit, rate) <==> n <= Samples(limit, rate)
  {
    var q, r := Seconds(n, rate), rate as real;
    assert q * r == n as real;
    if q <= limit {
      assert (limit - q) * r >= 0.0;
    } else {
      assert (q - limit) * r > 0.0;
    }
  }

  function Max(a: int, b: int): int { if a >= b then a else b }

  function Min(a: int, b: int): int { if a <= b then a else b }

  // ---- grouping ----

  /** Every region ends before the next one starts. */
  ghost predicate InOrder(rs: seq<Region>) {
    forall i, j :: 0 <= i < j < |rs| ==> rs[i].end <= rs[j].start
  }

  lemma InOrderIsSorted(rs: seq<Region>)
    requires InOrder(rs) && forall x :: x in rs ==> ValidRegion(x)
    ensures SortedBy(rs, StartsFirst)
  {
    forall i, j | 0 <= i < j < |rs| ensures StartsFirst(rs[i], rs[j]) {
      assert rs[i] in rs;
    }
  }

  ghost predicate Inside(r: Region, g: Region) {
    g.start <= r.start && r.end <= g.end
  }

  /** `r` may join `g`: the joined range fits the chunk limit and the silence between them the gap limit. */
  predicate Joins(g: Region, r: Region, chunkLimit: real, gapLimit: real) {
    (r.end - g.start) as real <= chunkLimit && Max(0, r.start - g.end) as real <= gapLimit
  }

  function Joined(g: Region, r: Region): Region {
    Region(g.start, Max(g.end, r.end))
  }

  /** The ranges for sorted regions; limits are in samples. */
  function Group(rs: seq<Region>, chunkLimit: real, gapLimit: real): (out: seq<Region>)
    requires rs != []
    ensures out != []
  {
    var r := rs[|rs| - 1];
    if |rs| == 1 then [r]
    else
      var out := Group(rs[..|rs| - 1], chunkLimit, gapLimit);
      var last := |out| - 1;
      if Joins(out[last], r, chunkLimit, gapLimit) then out[..last] + [Joined(out[last], r)] else out + [r]
  }

  /** Every region lies in some range. */
  lemma {:induction false} GroupCovers(rs: seq<Region>, chunkLimit: real, gapLimit: real, k: nat) returns (i: nat)
    requires k < |rs| && SortedBy(rs, StartsFirst)
    ensures var out := Group(rs, chunkLimit, gapLimit); i < |out| && Inside(rs[k], out[i])
  {
    var n := |rs| - 1;
    if k == n {
      GroupStarts(rs, chunkLimit, gapLimit);
      i := |Group(rs, chunkLimit, gapLimit)| - 1;
    } else {
      i := GroupCovers(rs[..n], chunkLimit, gapLimit, k);
    }
  }

  /** Ranges start in order, and the last one not after the last region. */
  lemma {:induction false} GroupStarts(rs: seq<Region>, chunkLimit: real, gapLimit: real)
    requires rs != [] && SortedBy(rs, StartsFirst)
    ensures var out := Group(rs, chunkLimit, gapLimit);
      && out[|out| - 1].start <= rs[|rs| - 1].start
      && rs[|rs| - 1].end <= out[|out| - 1].end
      && forall i :: 0 <= i < |out| - 1 ==> out[i].start <= out[i + 1].start
  {
    var n := |rs| - 1;
    if n > 0 {
      GroupStarts(rs[..n], chunkLimit, gapLimit);
      assert StartsFirst(rs[n - 1], rs[n]);
    }
  }

  /** A range is a single region or fits the chunk limit, and it ends where some region ends. */
  lemma {:induction false} GroupSizes(rs: seq<Region>, chunkLimit: real, gapLimit: real)
    requires rs != [] && forall k :: 0 <= k < |rs| ==> ValidRegion(rs[k])
    ensures forall i :: 0 <= i < |Group(rs, chunkLimit, gapLimit)| ==>
              RangeOk(rs, Group(rs, chunkLimit, gapLimit)[i], chunkLimit)
  {
    var n := |rs| - 1;
    assert rs[n] in rs;
    if n > 0 {
      var front := rs[..n];
      GroupSizes(front, chunkLimit, gapLimit);
      var out := Group(front, chunkLimit, gapLimit);
      var last := |out| - 1;
      forall i | 0 <= i <= last ensures RangeOk(rs, out[i], chunkLimit) {
        RangeOkGrows(front, rs, out[i], chunkLimit);
      }
      assert RangeOk(rs, rs[n], chunkLimit);
      if Joins(out[last], rs[n], chunkLimit, gapLimit) {
        JoinedOk(rs, out[last], rs[n], chunkLimit);
        assert Group(rs, chunkLimit, gapLimit) == out[..last] + [Joined(out[last], rs[n])];
      } else {
        assert Group(rs, chunkLimit, gapLimit) == out + [rs[n]];
      }
    }
  }

  ghost predicate RangeOk(rs: seq<Region>, g: Region, chunkLimit: real) {
    && ValidRegion(g)
    && (g in rs || (g.end - g.start) as real <= chunkLimit)
    && exists r :: r in rs && r.end == g.end
  }

  lemma RangeOkGrows(a: seq<Region>, b: seq<Region>, g: Region, chunkLimit: real)
    requires a <= b && RangeOk(a, g, chunkLimit)
    ensures RangeOk(b, g, chunkLimit)
  {
    var r :| r in a && r.end == g.end;
    assert r in b;
  }

  lemma JoinedOk(rs: seq<Region>, g: Region, r: Region, chunkLimit: real)
    requires RangeOk(rs, g, chunkLimit) && r in rs && (r.end - g.start) as real <= chunkLimit
    ensures RangeOk(rs, Joined(g, r), chunkLimit)
  {
    if g.end >= r.end {
      assert Joined(g, r) == g;
    }
  }

  /** The region that opened a range could not join the range before it. */
  lemma {:induction false} GroupSplits(rs: seq<Region>, chunkLimit: real, gapLimit: real, i: nat) returns (r: Region)
    requires rs != [] && i + 1 < |Group(rs, chunkLimit, gapLimit)|
    ensures var out := Group(rs, chunkLimit, gapLimit);
      && r in rs && out[i + 1].start == r.start
      && ((r.end - out[i].start) as real > chunkLimit ||
          (r.start > out[i].end && (r.start - out[i].end) as real > gapLimit) || gapLimit < 0.0)
  {
    var n := |rs| - 1;
    var out := Group(rs[..n], chunkLimit, gapLimit);
    if i + 1 < |out| {
      r := GroupSplits(rs[..n], chunkLimit, gapLimit, i);
      assert rs == rs[..n] + [rs[n]];
    } else {
      r := rs[n];
    }
  }

  /** No region meets the stretch from `lo` to `hi`. */
  ghost predicate Silent(rs: seq<Region>, lo: int, hi: int) {
    lo < hi && forall r :: r in rs ==> r.end <= lo || hi <= r.start
  }

  /** Inside a range no silence is longer than the gap limit. */
  lemma {:induction false} GroupHasNoLongSilence(rs: seq<Region>, chunkLimit: real, gapLimit: real, i: nat, lo: int,
                                                 hi: int)
    requires rs != [] && forall k :: 0 <= k < |rs| ==> ValidRegion(rs[k])
    requires i < |Group(rs, chunkLimit, gapLimit)| && Silent(rs, lo, hi)
    requires Group(rs, chunkLimit, gapLimit)[i].start <= lo && hi <= Group(rs, chunkLimit, gapLimit)[i].end
    ensures (hi - lo) as real <= gapLimit
  {
    var n := |rs| - 1;
    assert rs[n] in rs;
    if n > 0 {
      var front := rs[..n];
      var out := Group(front, chunkLimit, gapLimit);
      var last := |out| - 1;
      assert forall r :: r in front ==> r in rs;
      if i < last || (i == last && hi <= out[last].end) {
        GroupHasNoLongSilence(front, chunkLimit, gapLimit, i, lo, hi);
      } else if i == last {
        GroupSizes(front, chunkLimit, gapLimit);
        assert RangeOk(front, out[last], chunkLimit);
        var q :| q in front && q.end == out[last].end;
        assert ValidRegion(q) by {
          var k :| 0 <= k < |front| && front[k] == q;
          assert rs[k] == q;
        }
      }
    }
  }

  /** Disjoint regions give disjoint ranges. */
  lemma {:induction false} GroupInOrder(rs: seq<Region>, chunkLimit: real, gapLimit: real)
    requires rs != [] && InOrder(rs) && forall k :: 0 <= k < |rs| ==> ValidRegion(rs[k])
    ensures InOrder(Group(rs, chunkLimit, gapLimit))
    ensures var out := Group(rs, chunkLimit, gapLimit);
      out[|out| - 1].end <= rs[|rs| - 1].end && forall i :: 0 <= i < |out| ==> out[i].start < out[i].end
  {
    var n := |rs| - 1;
    assert rs[n].start < rs[n].end;
    if n > 0 {
      GroupInOrder(rs[..n], chunkLimit, gapLimit);
      assert rs[n - 1].end <= rs[n].start;
      var out := Group(rs[..n], chunkLimit, gapLimit);
      AppendInOrder(out, rs[n]);
      ReplaceLastInOrder(out, Joined(out[|out| - 1], rs[n]));
    }
  }

  lemma AppendInOrder(out: seq<Region>, r: Region)
    requires out != [] && InOrder(out) && (forall i :: 0 <= i < |out| ==> out[i].start < out[i].end)
    requires out[|out| - 1].end <= r.start
    ensures InOrder(out + [r])
  {
    forall i | 0 <= i < |out| ensures out[i].end <= r.start {
      if i < |out| - 1 {
        assert out[i].end <= out[|out| - 1].start;
      }
    }
  }

  lemma ReplaceLastInOrder(out: seq<Region>, g: Region)
    requires out != [] && InOrder(out) && g.start == out[|out| - 1].start
    ensures InOrder(out[..|out| - 1] + [g])
  {
  }

  lemma GroupSnoc(seen: seq<Region>, r: Region, output: seq<Region>, current: Region, chunkLimit: real, gapLimit: real)
    requires seen != [] && output + [current] == Group(seen, chunkLimit, gapLimit)
    ensures Group(seen + [r], chunkLimit, gapLimit) ==
            if Joins(current, r, chunkLimit, gapLimit) then output + [Joined(current, r)] else output + [current] + [r]
  {
    var all, out := seen + [r], output + [current];
    assert all[..|all| - 1] == seen && out[..|out| - 1] == output && out[|out| - 1] == current;
  }

  lemma JoinsInSeconds(g: Region, r: Region, rate: int, maxChunk: real, maxGap: real)
    requires rate > 0
    ensures Joins(g, r, Limit(maxChunk, rate), Limit(maxGap, rate)) <==>
            Seconds(r.end - g.start, rate) <= maxChunk && Seconds(Max(0, r.start - g.end), rate) <= maxGap
  {
    SecondsAtMost(r.end - g.start, rate, maxChunk);
    SecondsAtMost(Max(0, r.start - g.end), rate, maxGap);
  }

  /** Every region lies whole in some range. */
  ghost predicate Covered(regions: seq<Region>, out: seq<Region>) {
    forall r :: r in regions ==> exists g :: g in out && g.start <= r.start && r.end <= g.end
  }

  /** A range starts where a region starts, ends where one ends, and is a single region or no longer than a chunk. */
  ghost predicate Edged(regions: seq<Region>, g: Region, chunkLimit: real) {
    && (g in regions || (g.end - g.start) as real <= chunkLimit)
    && (exists r :: r in regions && r.start == g.start) && (exists r :: r in regions && r.end == g.end)
  }

  /** Inside the range no silence is longer than the gap limit. */
  ghost predicate Dense(regions: seq<Region>, g: Region, gapLimit: real) {
    forall lo, hi :: g.start <= lo && hi <= g.end && Silent(regions, lo, hi) ==> (hi - lo) as real <= gapLimit
  }

  /**
   * What the ranges are: they start in order and cover every region whole, each of them is edged by regions and dense,
   * and the region that opens the next one is too far away, or makes this one too long.
   */
  ghost predicate GoodRanges(regions: seq<Region>, out: seq<Region>, chunkLimit: real, gapLimit: real) {
    && Covered(regions, out)
    && (forall g :: g in out ==> Edged(regions, g, chunkLimit))
    && (forall g :: g in out ==> Dense(regions, g, gapLimit))
    && (forall i :: 0 <= i < |out| - 1 ==> Follows(regions, out, i, chunkLimit, gapLimit))
  }

  /** Range `i + 1` starts after range `i`, with some region that does not go with it. */
  ghost predicate Follows(regions: seq<Region>, out: seq<Region>, i: int, chunkLimit: real, gapLimit: real)
    requires 0 <= i < |out| - 1
  {
    var g, h := out[i], out[i + 1];
    && g.start <= h.start
    && exists r :: r in regions && r.start == h.start &&
                   ((r.end - g.start) as real > chunkLimit ||
                    (r.start > g.end && (r.start - g.end) as real > gapLimit))
  }

  /** Every range starts where some region starts. */
  lemma {:induction false} GroupOpens(rs: seq<Region>, chunkLimit: real, gapLimit: real)
    requires rs != []
    ensures forall g :: g in Group(rs, chunkLimit, gapLimit) ==> exists r :: r in rs && r.start == g.start
  {
    var n := |rs| - 1;
    assert rs[n] in rs;
    if n > 0 {
      GroupOpens(rs[..n], chunkLimit, gapLimit);
      var out := Group(rs[..n], chunkLimit, gapLimit);
      forall g | g in Group(rs, chunkLimit, gapLimit) ensures exists r :: r in rs && r.start == g.start {
        var h := if g in out then g else if g == rs[n] then g else out[|out| - 1];
        if h in out {
          var r :| r in rs[..n] && r.start == h.start;
          assert r in rs && r.start == g.start;
        }
      }
    }
  }

  lemma GroupIsGood(regions: seq<Region>, rs: seq<Region>, chunkLimit: real, gapLimit: real)
    requires rs != [] && SortedBy(rs, StartsFirst) && gapLimit >= 0.0
    requires (forall r :: r in rs <==> r in regions) && forall r :: r in rs ==> ValidRegion(r)
    ensures GoodRanges(regions, Group(rs, chunkLimit, gapLimit), chunkLimit, gapLimit)
  {
    var out := Group(rs, chunkLimit, gapLimit);
    GroupIsCovered(regions, rs, chunkLimit, gapLimit);
    forall g | g in out ensures Edged(regions, g, chunkLimit) && Dense(regions, g, gapLimit) {
      var i :| 0 <= i < |out| && out[i] == g;
      GroupIsEdged(regions, rs, chunkLimit, gapLimit, i);
      GroupIsDense(regions, rs, chunkLimit, gapLimit, i);
    }
    forall i | 0 <= i < |out| - 1 ensures Follows(regions, out, i, chunkLimit, gapLimit) {
      GroupFollows(regions, rs, chunkLimit, gapLimit, i);
    }
  }

  lemma GroupFollows(regions: seq<Region>, rs: seq<Region>, chunkLimit: real, gapLimit: real, i: nat)
    requires rs != [] && SortedBy(rs, StartsFirst) && gapLimit >= 0.0 && forall r :: r in rs <==> r in regions
    requires i < |Group(rs, chunkLimit, gapLimit)| - 1
    ensures Follows(regions, Group(rs, chunkLimit, gapLimit), i, chunkLimit, gapLimit)
  {
    var r := GroupSplits(rs, chunkLimit, gapLimit, i);
    GroupStarts(rs, chunkLimit, gapLimit);
  }

  lemma GroupIsCovered(regions: seq<Region>, rs: seq<Region>, chunkLimit: real, gapLimit: real)
    requires rs != [] && SortedBy(rs, StartsFirst) && forall r :: r in rs <==> r in regions
    ensures Covered(regions, Group(rs, chunkLimit, gapLimit))
  {
    var out := Group(rs, chunkLimit, gapLimit);
    forall r | r in regions ensures exists g :: g in out && g.start <= r.start && r.end <= g.end {
      var k :| 0 <= k < |rs| && rs[k] == r;
      var i := GroupCovers(rs, chunkLimit, gapLimit, k);
      assert out[i] in out;
    }
  }

  lemma GroupIsEdged(regions: seq<Region>, rs: seq<Region>, chunkLimit: real, gapLimit: real, i: nat)
    requires rs != [] && (forall r :: r in rs <==> r in regions) && (forall r :: r in rs ==> ValidRegion(r))
    requires i < |Group(rs, chunkLimit, gapLimit)|
    ensures Edged(regions, Group(rs, chunkLimit, gapLimit)[i], chunkLimit)
  {
    var out := Group(rs, chunkLimit, gapLimit);
    assert forall k :: 0 <= k < |rs| ==> rs[k] in rs;
    GroupSizes(rs, chunkLimit, gapLimit);
    GroupOpens(rs, chunkLimit, gapLimit);
    assert out[i] in out && RangeOk(rs, out[i], chunkLimit);
  }

  lemma GroupIsDense(regions: seq<Region>, rs: seq<Region>, chunkLimit: real, gapLimit: real, i: nat)
    requires rs != [] && (forall r :: r in rs <==> r in regions) && (forall r :: r in rs ==> ValidRegion(r))
    requires i < |Group(rs, chunkLimit, gapLimit)|
    ensures Dense(regions, Group(rs, chunkLimit, gapLimit)[i], gapLimit)
  {
    var g := Group(rs, chunkLimit, gapLimit)[i];
    assert forall k :: 0 <= k < |rs| ==> rs[k] in rs;
    forall lo, hi | g.start <= lo && hi <= g.end && Silent(regions, lo, hi) ensures (hi - lo) as real <= gapLimit {
      GroupHasNoLongSilence(rs, chunkLimit, gapLimit, i, lo, hi);
    }
  }

  lemma LimitNonNegative(seconds: real, rate: int)
    requires seconds >= 0.0 && rate > 0
    ensures Limit(seconds, rate) >= 0.0
  {
  }

  /** The ranges for regions in any order. */
  function Ranges(regions: seq<Region>, chunkLimit: real, gapLimit: real): seq<Region> {
    if regions == [] then [] else Group(Sort(regions, StartsFirst), chunkLimit, gapLimit)
  }

  /** What `build_smart_ranges` returns for regions in any order, with a gap limit that is not negative. */
  lemma RangesAreGood(regions: seq<Region>, rate: int, maxChunk: real, maxGap: real)
    requires rate > 0 && maxGap >= 0.0 && forall g :: g in regions ==> ValidRegion(g)
    ensures GoodRanges(regions, Ranges(regions, Limit(maxChunk, rate), Limit(maxGap, rate)),
                       Limit(maxChunk, rate), Limit(maxGap, rate))
  {
    if regions != [] {
      SortMembers(regions, StartsFirst);
      SortSorted(regions, StartsFirst);
      LimitNonNegative(maxGap, rate);
      GroupIsGood(regions, Sort(regions, StartsFirst), Limit(maxChunk, rate), Limit(maxGap, rate));
    }
  }

  /** `build_smart_ranges`, for regions that `SpeechRegion` accepts. */
  method BuildSmartRanges(regions: seq<Region>, rate: int, maxChunk: real, maxGap: real)
    returns (r: Result<seq<Region>, string>)
    ensures r.Err? <==> rate <= 0
    ensures r.Ok? ==> r.value == Ranges(regions, Limit(maxChunk, rate), Limit(maxGap, rate))
  {
    if rate <= 0 {
      return Err("sample_rate must be positive");
    }
    if regions == [] {
      return Ok([]);
    }
    var ordered := Sort(regions, StartsFirst);
    SortMembers(regions, StartsFirst);
    var out := GroupSorted(ordered, rate, maxChunk, maxGap);
    return Ok(out);
  }

  /** The loop of `build_smart_ranges`. */
  method GroupSorted(ordered: seq<Region>, rate: int, maxChunk: real, maxGap: real) returns (output: seq<Region>)
    requires rate > 0 && ordered != []
    ensures output == Group(ordered, Limit(maxChunk, rate), Limit(maxGap, rate))
  {
    ghost var chunkLimit, gapLimit := Limit(maxChunk, rate), Limit(maxGap, rate);
    var start, end := ordered[0].start, ordered[0].end;
    output := [];
    assert ordered[..1] == [ordered[0]];
    for i := 1 to |ordered|
      invariant output + [Region(start, end)] == Group(ordered[..i], chunkLimit, gapLimit)
    {
      var region := ordered[i];
      GroupSnoc(ordered[..i], region, output, Region(start, end), chunkLimit, gapLimit);
      assert ordered[..i + 1] == ordered[..i] + [region];
      JoinsInSeconds(Region(start, end), region, rate, maxChunk, maxGap);
      var duration := Seconds(region.end - start, rate);
      var gap := Seconds(Max(0, region.start - end), rate);
      if duration <= maxChunk && gap <= maxGap {
        end := Max(end, region.end);
      } else {
        output := output + [Region(start, end)];
        start, end := region.start, region.end;
      }
    }
    assert ordered[..|ordered|] == ordered;
    output := output + [Region(start, end)];
  }

  // ---- padding ----

  /** One range after padding and trimming. */
  function Padded(g: Region, rate: int, total: int, padding: real, maxFinal: real): Region
    requires rate > 0
  {
    var p := Samples(padding, rate);
    var start, end := Max(0, g.start - p), Min(total, g.end + p);
    if !AtMost(end - start, maxFinal, rate) then
      var overflow := (end - start) - Samples(maxFinal, rate);
      var left := overflow / 2;
      Region(start + left, end - (overflow - left))
    else Region(start, end)
  }

  /** `apply_edge_padding`; it raises when a padded range is not a region. */
  method ApplyEdgePadding(ranges: seq<Region>, rate: int, total: int, padding: real, maxFinal: real)
    returns (r: Result<seq<Region>, string>)
    ensures r.Err? <==> rate <= 0 || total <= 0 ||
                        exists g :: g in ranges && !ValidRegion(Padded(g, rate, total, padding, maxFinal))
    ensures r.Ok? ==> |r.value| == |ranges| &&
                      forall i :: 0 <= i < |ranges| ==> r.value[i] == Padded(ranges[i], rate, total, padding, maxFinal)
  {
    if rate <= 0 || total <= 0 {
      return Err("sample_rate and total_samples must be positive");
    }
    var p := Samples(padding, rate);
    var padded: seq<Region> := [];
    for i := 0 to |ranges|
      invariant |padded| == i
      invariant forall j :: 0 <= j < i ==>
                  padded[j] == Padded(ranges[j], rate, total, padding, maxFinal) && ValidRegion(padded[j])
    {
      var start := Max(0, ranges[i].start - p);
      var end := Min(total, ranges[i].end + p);
      SecondsAtMost(end - start, rate, maxFinal);
      if Seconds(end - start, rate) > maxFinal {
        var overflow := (end - start) - Samples(maxFinal, rate);
        var left := overflow / 2;
        var right := overflow - left;
        start := start + left;
        end := end - right;
      }
      assert Region(start, end) == Padded(ranges[i], rate, total, padding, maxFinal);
      if !ValidRegion(Region(start, end)) {
        assert ranges[i] in ranges;
        return Err("speech region must have a non-negative start and positive length");
      }
      padded := padded + [Region(start, end)];
    }
    return Ok(padded);
  }

  /** A padded range never leaves the recording and never exceeds the final limit. */
  lemma PaddedBounds(g: Region, rate: int, total: int, padding: real, maxFinal: real)
    requires rate > 0 && padding >= 0.0 && maxFinal >= 0.0
    requires ValidRegion(g) && g.end <= total
    ensures var c := Padded(g, rate, total, padding, maxFinal);
      0 <= c.start <= c.end <= total && AtMost(c.end - c.start, maxFinal, rate)
  {
    var c := Padded(g, rate, total, padding, maxFinal);
    var p := Samples(padding, rate);
    SamplesNonNegative(padding, rate);
    SamplesNonNegative(maxFinal, rate);
    var start, end := Max(0, g.start - p), Min(total, g.end + p);
    SecondsAtMost(end - start, rate, maxFinal);
    SecondsAtMost(c.end - c.start, rate, maxFinal);
  }

  lemma SamplesNonNegative(seconds: real, rate: int)
    requires seconds >= 0.0 && rate > 0
    ensures Samples(seconds, rate) >= 0
  {
    assert seconds * rate as real >= 0.0;
  }

  /**
   * Exactly when padding keeps the whole range: the overflow over the limit must not exceed what was added, taking
   * half of it on each side. Without overflow the range gets the padding that fits into the recording, with overflow it
   * has exactly the limit. A range away from both ends of the recording is kept exactly when it fits the limit by
   * itself; one that starts the recording has no padding on its left to give up.
   */
  lemma PaddedKeepsRange(g: Region, rate: int, total: int, padding: real, maxFinal: real)
    requires rate > 0 && padding >= 0.0 && maxFinal >= 0.0
    requires ValidRegion(g) && g.end <= total
    ensures var c := Padded(g, rate, total, padding, maxFinal);
      var p, limit, length := Samples(padding, rate), Samples(maxFinal, rate), g.end - g.start;
      var left, right := Min(p, g.start), Min(p, total - g.end);
      var overflow := length + left + right - limit;
      && (Inside(g, c) <==> overflow <= 0 || overflow <= Min(2 * left + 1, 2 * right))
      && (p <= g.start && g.end + p <= total ==> (Inside(g, c) <==> length <= limit))
      && (g.start == 0 && 1 <= p && g.end + p <= total ==> (Inside(g, c) <==> length + p <= limit + 1))
      && (overflow <= 0 ==> c == Region(g.start - left, g.end + right))
      && (overflow > 0 ==> c.start == g.start - left + overflow / 2 && c.end - c.start == limit)
  {
    var p := Samples(padding, rate);
    SamplesNonNegative(padding, rate);
    var start, end := Max(0, g.start - p), Min(total, g.end + p);
    SecondsAtMost(end - start, rate, maxFinal);
  }

  /** Speech of 24.8 s at the start of a recording loses its first 0.175 s: 2800 samples at 16 kHz. */
  lemma LeadingSpeechLost(total: int)
    requires total >= 404_000
    ensures Padded(Region(0, 396_800), 16_000, total, 0.45, 24.9) == Region(2_800, 401_200)
  {
    assert Samples(0.45, 16_000) == 7_200 && Samples(24.9, 16_000) == 398_400;
  }

  // ---- the default plan ----

  /** Regions as voice activity detection delivers them: disjoint, in order, inside the recording, at most 21.1 s. */
  ghost predicate DetectedSpeech(rs: seq<Region>, rate: int, total: int)
    requires rate > 0
  {
    && InOrder(rs)
    && forall r :: r in rs ==> ValidRegion(r) && r.end <= total && (r.end - r.start) as real <= 21.1 * rate as real
  }

  /** The default ranges of detected speech. */
  ghost function DefaultRanges(rs: seq<Region>, rate: int): (out: seq<Region>)
    requires rate > 0
  {
    if rs == [] then [] else Group(rs, Limit(22.0, rate), Limit(1.2, rate))
  }

  /** Ranges lie in the recording, are disjoint, hold at most 22 s, and start more than 0.9 s apart. */
  lemma RangesOfSpeech(rs: seq<Region>, rate: int, total: int)
    requires rate > 0 && DetectedSpeech(rs, rate, total)
    ensures InOrder(DefaultRanges(rs, rate))
    ensures forall g :: g in DefaultRanges(rs, rate) ==>
              0 <= g.start < g.end <= total && (g.end - g.start) as real <= Limit(22.0, rate)
    ensures var out := DefaultRanges(rs, rate);
      forall i :: 0 <= i < |out| - 1 ==> (out[i + 1].start - out[i].start) as real > 0.9 * rate as real
  {
    if rs != [] {
      var chunkLimit, gapLimit := Limit(22.0, rate), Limit(1.2, rate);
      assert forall k :: 0 <= k < |rs| ==> rs[k] in rs;
      InOrderIsSorted(rs);
      GroupInOrder(rs, chunkLimit, gapLimit);
      RangeSizes(rs, rate, total, chunkLimit, gapLimit);
      RangeStarts(rs, rate, total, chunkLimit, gapLimit);
    }
  }

  lemma RangeSizes(rs: seq<Region>, rate: int, total: int, chunkLimit: real, gapLimit: real)
    requires rate > 0 && rs != [] && DetectedSpeech(rs, rate, total) && SortedBy(rs, StartsFirst)
    requires chunkLimit == Limit(22.0, rate)
    ensures forall g :: g in Group(rs, chunkLimit, gapLimit) ==>
              0 <= g.start < g.end <= total && (g.end - g.start) as real <= chunkLimit
  {
    var out := Group(rs, chunkLimit, gapLimit);
    assert forall k :: 0 <= k < |rs| ==> rs[k] in rs;
    GroupSizes(rs, chunkLimit, gapLimit);
    forall g | g in out ensures 0 <= g.start < g.end <= total && (g.end - g.start) as real <= chunkLimit {
      var i :| 0 <= i < |out| && out[i] == g;
      assert RangeOk(rs, out[i], chunkLimit);
    }
  }

  lemma RangeStarts(rs: seq<Region>, rate: int, total: int, chunkLimit: real, gapLimit: real)
    requires rate > 0 && rs != [] && DetectedSpeech(rs, rate, total)
    requires chunkLimit == Limit(22.0, rate) && gapLimit == Limit(1.2, rate)
    requires forall g :: g in Group(rs, chunkLimit, gapLimit) ==> g.start < g.end
    ensures var out := Group(rs, chunkLimit, gapLimit);
      forall i :: 0 <= i < |out| - 1 ==> (out[i + 1].start - out[i].start) as real > 0.9 * rate as real
  {
    var out := Group(rs, chunkLimit, gapLimit);
    forall i | 0 <= i < |out| - 1 ensures (out[i + 1].start - out[i].start) as real > 0.9 * rate as real {
      var r := GroupSplits(rs, chunkLimit, gapLimit, i);
      assert out[i] in out;
    }
  }

  /** Default padding of a default range is never trimmed. */
  lemma DefaultPadding(g: Region, rate: int, total: int)
    requires rate > 0 && 0 <= g.start < g.end <= total && (g.end - g.start) as real <= Limit(22.0, rate)
    ensures var p := Samples(0.45, rate);
      && p >= 0 && 2.0 * p as real <= 0.9 * rate as real
      && Padded(g, rate, total, 0.45, 24.9) == Region(Max(0, g.start - p), Min(total, g.end + p))
  {
    var p := Samples(0.45, rate);
    SamplesNonNegative(0.45, rate);
    var n := Min(total, g.end + p) - Max(0, g.start - p);
    assert n as real <= 22.9 * rate as real;
  }

  /** The chunks that transcription receives. */
  ghost predicate GoodPlan(rs: seq<Region>, chunks: seq<Region>, rate: int, total: int)
    requires rate > 0
  {
    && (forall r :: r in rs ==> exists c :: c in chunks && Inside(r, c))
    && (forall c :: c in chunks ==> 0 <= c.start < c.end <= total && AtMost(c.end - c.start, 24.9, rate))
    && (forall i :: 0 <= i < |chunks| - 1 ==>
          chunks[i].start <= chunks[i + 1].start && AtMost(chunks[i].end - chunks[i + 1].start, 0.9, rate))
    && (forall i, j :: 0 <= i && i + 1 < j < |chunks| ==> chunks[i].end <= chunks[j].start)
  }

  /**
   * The default grouping and padding, as the transcriber calls them: every speech region lies whole inside some
   * chunk, no chunk is too long or leaves the recording, and only neighbours overlap, by at most 0.9 s.
   */
  method PlanChunks(regions: seq<Region>, rate: int, total: int) returns (r: Result<seq<Region>, string>)
    ensures rate > 0 && total > 0 && DetectedSpeech(regions, rate, total) ==>
              r.Ok? && GoodPlan(regions, r.value, rate, total)
  {
    var ranges := BuildSmartRanges(regions, rate, 22.0, 1.2);
    if ranges.Err? {
      return ranges;
    }
    r := ApplyEdgePadding(ranges.value, rate, total, 0.45, 24.9);
    if total > 0 && DetectedSpeech(regions, rate, total) {
      DefaultRangesComputed(regions, rate, total);
      DefaultChunksValid(regions, rate, total);
      PlanIsGood(regions, r.value, rate, total);
    }
  }

  lemma DefaultRangesComputed(rs: seq<Region>, rate: int, total: int)
    requires rate > 0 && DetectedSpeech(rs, rate, total)
    ensures Sort(rs, StartsFirst) == rs
  {
    InOrderIsSorted(rs);
    SortFixed(rs, StartsFirst);
  }

  lemma DefaultChunksValid(rs: seq<Region>, rate: int, total: int)
    requires rate > 0 && DetectedSpeech(rs, rate, total)
    ensures forall g :: g in DefaultRanges(rs, rate) ==> ValidRegion(Padded(g, rate, total, 0.45, 24.9))
  {
    RangesOfSpeech(rs, rate, total);
    forall g | g in DefaultRanges(rs, rate) ensures ValidRegion(Padded(g, rate, total, 0.45, 24.9)) {
      DefaultPadding(g, rate, total);
    }
  }

  lemma PlanIsGood(rs: seq<Region>, chunks: seq<Region>, rate: int, total: int)
    requires rate > 0 && DetectedSpeech(rs, rate, total)
    requires var out := DefaultRanges(rs, rate);
      |chunks| == |out| &&
      forall i :: 0 <= i < |out| ==> chunks[i] == Padded(out[i], rate, total, 0.45, 24.9)
    ensures GoodPlan(rs, chunks, rate, total)
  {
    var out, p := DefaultRanges(rs, rate), Samples(0.45, rate);
    RangesOfSpeech(rs, rate, total);
    forall i | 0 <= i < |out|
      ensures chunks[i] == Region(Max(0, out[i].start - p), Min(total, out[i].end + p))
      ensures 0 <= p && 2.0 * p as real <= 0.9 * rate as real && 0 <= out[i].start < out[i].end <= total
    {
      assert out[i] in out;
      DefaultPadding(out[i], rate, total);
    }
    EveryRegionKept(rs, chunks, rate, total);
    ChunksFit(out, chunks, p, rate, total);
  }

  lemma ChunksFit(out: seq<Region>, chunks: seq<Region>, p: int, rate: int, total: int)
    requires rate > 0 && |chunks| == |out| && InOrder(out) && 0 <= p && 2.0 * p as real <= 0.9 * rate as real
    requires forall i :: 0 <= i < |out| ==>
               chunks[i] == Region(Max(0, out[i].start - p), Min(total, out[i].end + p))
               && 0 <= out[i].start < out[i].end <= total && (out[i].end - out[i].start) as real <= Limit(22.0, rate)
    requires forall k :: 0 <= k < |out| - 1 ==> (out[k + 1].start - out[k].start) as real > 0.9 * rate as real
    ensures forall c :: c in chunks ==> 0 <= c.start < c.end <= total && AtMost(c.end - c.start, 24.9, rate)
    ensures forall i :: 0 <= i < |chunks| - 1 ==>
              chunks[i].start <= chunks[i + 1].start && AtMost(chunks[i].end - chunks[i + 1].start, 0.9, rate)
    ensures forall i, j :: 0 <= i && i + 1 < j < |chunks| ==> chunks[i].end <= chunks[j].start
  {
    forall i | 0 <= i < |chunks| ensures AtMost(chunks[i].end - chunks[i].start, 24.9, rate) {
      PaddingSize(out[i], chunks[i], p, rate, total);
    }
    forall i | 0 <= i < |chunks| - 1
      ensures chunks[i].start <= chunks[i + 1].start && AtMost(chunks[i].end - chunks[i + 1].start, 0.9, rate)
    {
      NeighbourOverlap(out[i], out[i + 1], p, rate, total);
    }
    forall i, j | 0 <= i && i + 1 < j < |chunks| ensures chunks[i].end <= chunks[j].start {
      FarApart(out, i, j, p, rate);
    }
  }

  lemma PaddingSize(g: Region, c: Region, p: int, rate: int, total: int)
    requires rate > 0 && 2.0 * p as real <= 0.9 * rate as real && (g.end - g.start) as real <= Limit(22.0, rate)
    requires c == Region(Max(0, g.start - p), Min(total, g.end + p))
    ensures AtMost(c.end - c.start, 24.9, rate)
  {
  }

  lemma NeighbourOverlap(g: Region, h: Region, p: int, rate: int, total: int)
    requires rate > 0 && 2.0 * p as real <= 0.9 * rate as real && g.start <= g.end <= h.start
    ensures Max(0, g.start - p) <= Max(0, h.start - p)
    ensures AtMost(Min(total, g.end + p) - Max(0, h.start - p), 0.9, rate)
  {
  }

  /** Two ranges that are not neighbours leave room for two paddings. */
  lemma FarApart(out: seq<Region>, i: nat, j: nat, p: int, rate: int)
    requires i + 1 < j < |out| && InOrder(out) && forall k :: 0 <= k < |out| ==> out[k].start < out[k].end
    requires forall k :: 0 <= k < |out| - 1 ==> (out[k + 1].start - out[k].start) as real > 0.9 * rate as real
    requires 2.0 * p as real <= 0.9 * rate as real
    ensures out[i].end + p <= out[j].start - p
  {
    var k := i + 1;
    assert out[i].end <= out[k].start;
    assert (out[k + 1].start - out[k].start) as real > 0.9 * rate as real;
    assert k + 1 < j ==> out[k + 1].end <= out[j].start;
  }

  lemma EveryRegionKept(rs: seq<Region>, chunks: seq<Region>, rate: int, total: int)
    requires rate > 0 && DetectedSpeech(rs, rate, total)
    requires var out := DefaultRanges(rs, rate);
      |chunks| == |out| && forall i :: 0 <= i < |out| ==> Inside(out[i], chunks[i])
    ensures forall r :: r in rs ==> exists c :: c in chunks && Inside(r, c)
  {
    InOrderIsSorted(rs);
    forall r | r in rs ensures exists c :: c in chunks && Inside(r, c) {
      var k :| 0 <= k < |rs| && rs[k] == r;
      var i := GroupCovers(rs, Limit(22.0, rate), Limit(1.2, rate), k);
      assert chunks[i] in chunks && Inside(r, chunks[i]);
    }
  }
}
