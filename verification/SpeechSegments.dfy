/**
 * Speech segments of an envelope and their distribution over sentences (`align-mascot-audio.py`, `speech_segments`
 * and the grouping part of `align`). Positions are 10 ms frames.
 */
module SpeechSegments {
  import opened Common
  import opened StableSort

  const FRAME_MS := 10
  /** `MIN_PAUSE_MS // FRAME_MS` */
  const BRIDGE := 15
  const MIN_SEGMENT_MS := 90

  /** A run of frames, both ends included. */
  datatype Segment = Segment(first: int, last: int)

  // ---- segments ----

  /** The runs of the first `n` frames: a voiced frame joins the last run if at most `BRIDGE` frames after its end. */
  function Runs(voiced: seq<bool>, n: nat): seq<Segment>
    requires n <= |voiced|
  {
    if n == 0 then []
    else
      var runs := Runs(voiced, n - 1);
      if !voiced[n - 1] then runs
      else if runs != [] && n - 1 - runs[|runs| - 1].last <= BRIDGE then
        runs[..|runs| - 1] + [runs[|runs| - 1].(last := n - 1)]
      else runs + [Segment(n - 1, n - 1)]
  }

  /** A run starts and ends voiced and contains no pause of `BRIDGE` frames. */
  ghost predicate IsRun(voiced: seq<bool>, s: Segment, n: nat)
    requires n <= |voiced|
  {
    && 0 <= s.first <= s.last < n
    && voiced[s.first] && voiced[s.last]
    && forall k :: s.first <= k <= s.last ==> VoicedNear(voiced, s, k)
  }

  /** Some frame of the run, at most `BRIDGE - 1` frames before `k`, is voiced. */
  ghost predicate VoicedNear(voiced: seq<bool>, s: Segment, k: int)
    requires 0 <= s.first <= k < |voiced|
  {
    exists j :: s.first <= j <= k < j + BRIDGE && voiced[j]
  }

  ghost predicate InSome(runs: seq<Segment>, k: int) {
    exists i :: 0 <= i < |runs| && runs[i].first <= k <= runs[i].last
  }

  /** Consecutive segments are more than a bridge apart. */
  ghost predicate Separated(runs: seq<Segment>) {
    forall i, j :: 0 <= i < j < |runs| ==> runs[j].first - runs[i].last > BRIDGE
  }

  lemma GrowRun(voiced: seq<bool>, s: Segment, n: nat)
    requires n < |voiced| && IsRun(voiced, s, n) && voiced[n] && n - s.last <= BRIDGE
    ensures IsRun(voiced, s.(last := n), n + 1)
  {
    var g := s.(last := n);
    forall k | s.first <= k <= n ensures VoicedNear(voiced, g, k) {
      if k <= s.last {
        assert VoicedNear(voiced, s, k);
      } else if k < n {
        assert s.last <= k < s.last + BRIDGE;
      } else {
        assert k <= k < k + BRIDGE;
      }
    }
  }

  lemma WiderRun(voiced: seq<bool>, s: Segment, n: nat)
    requires n < |voiced| && IsRun(voiced, s, n)
    ensures IsRun(voiced, s, n + 1)
  {
  }

  lemma NewRun(voiced: seq<bool>, m: nat)
    requires m < |voiced| && voiced[m]
    ensures IsRun(voiced, Segment(m, m), m + 1)
  {
    assert m <= m < m + BRIDGE;
    assert VoicedNear(voiced, Segment(m, m), m);
  }

  ghost predicate AllRuns(voiced: seq<bool>, runs: seq<Segment>, n: nat)
    requires n <= |voiced|
  {
    forall i :: 0 <= i < |runs| ==> IsRun(voiced, runs[i], n)
  }

  /** Every run of the scan begins and ends with speech and bridges no long pause. */
  lemma {:induction false} RunsAreRuns(voiced: seq<bool>, n: nat)
    requires n <= |voiced|
    ensures AllRuns(voiced, Runs(voiced, n), n)
  {
    if n > 0 {
      var m := n - 1;
      RunsAreRuns(voiced, m);
      var runs := Runs(voiced, m);
      forall i | 0 <= i < |runs| ensures IsRun(voiced, runs[i], n) {
        WiderRun(voiced, runs[i], m);
      }
      if voiced[m] {
        NewRun(voiced, m);
        if runs != [] && m - runs[|runs| - 1].last <= BRIDGE {
          GrowRun(voiced, runs[|runs| - 1], m);
        }
      }
    }
  }

  ghost predicate Bounded(runs: seq<Segment>, n: nat) {
    forall i :: 0 <= i < |runs| ==> 0 <= runs[i].first <= runs[i].last < n
  }

  lemma LongerRun(runs: seq<Segment>, m: nat)
    requires runs != [] && Separated(runs) && Bounded(runs, m)
    ensures var longer := runs[..|runs| - 1] + [runs[|runs| - 1].(last := m)];
      Separated(longer) && Bounded(longer, m + 1)
  {
  }

  lemma FurtherRun(runs: seq<Segment>, m: nat)
    requires Separated(runs) && Bounded(runs, m) && (runs != [] ==> m - runs[|runs| - 1].last > BRIDGE)
    ensures Separated(runs + [Segment(m, m)]) && Bounded(runs + [Segment(m, m)], m + 1)
  {
    forall i | 0 <= i < |runs| ensures m - runs[i].last > BRIDGE {
      if i < |runs| - 1 {
        assert runs[|runs| - 1].first - runs[i].last > BRIDGE;
      }
    }
  }

  /** The runs of the scan are ordered and more than a bridge apart. */
  lemma {:induction false} RunsSeparated(voiced: seq<bool>, n: nat)
    requires n <= |voiced|
    ensures Separated(Runs(voiced, n)) && Bounded(Runs(voiced, n), n)
  {
    if n > 0 {
      RunsSeparated(voiced, n - 1);
      var runs := Runs(voiced, n - 1);
      if runs != [] && n - 1 - runs[|runs| - 1].last <= BRIDGE {
        LongerRun(runs, n - 1);
      } else {
        FurtherRun(runs, n - 1);
      }
    }
  }

  /** Every voiced frame lies in a run. */
  lemma {:induction false} RunsCover(voiced: seq<bool>, n: nat)
    requires n <= |voiced|
    ensures forall k :: 0 <= k < n && voiced[k] ==> InSome(Runs(voiced, n), k)
  {
    if n > 0 {
      RunsCover(voiced, n - 1);
      RunsSeparated(voiced, n - 1);
      CoverStep(voiced, n - 1);
    }
  }

  lemma CoverStep(voiced: seq<bool>, m: nat)
    requires m < |voiced| && (forall k :: 0 <= k < m && voiced[k] ==> InSome(Runs(voiced, m), k))
    requires Bounded(Runs(voiced, m), m)
    ensures forall k :: 0 <= k < m + 1 && voiced[k] ==> InSome(Runs(voiced, m + 1), k)
  {
    var before, after := Runs(voiced, m), Runs(voiced, m + 1);
    forall k | 0 <= k < m + 1 && voiced[k] ensures InSome(after, k) {
      if k < m {
        assert InSome(before, k);
        var i :| 0 <= i < |before| && before[i].first <= k <= before[i].last;
        assert after[i].first <= k <= after[i].last;
      } else {
        assert after[|after| - 1].first <= k <= after[|after| - 1].last;
      }
    }
  }

  predicate LongEnough(s: Segment) {
    (s.last - s.first) * FRAME_MS >= MIN_SEGMENT_MS
  }

  function KeepLong(runs: seq<Segment>): (r: seq<Segment>)
    ensures forall s :: s in r <==> s in runs && LongEnough(s)
  {
    if runs == [] then []
    else KeepLong(runs[..|runs| - 1]) + if LongEnough(runs[|runs| - 1]) then [runs[|runs| - 1]] else []
  }

  lemma {:induction false} KeepLongSeparated(runs: seq<Segment>)
    requires Separated(runs)
    ensures Separated(KeepLong(runs))
  {
    if runs != [] {
      var front := runs[..|runs| - 1];
      KeepLongSeparated(front);
      var kept := KeepLong(front);
      forall i | 0 <= i < |kept| ensures runs[|front|].first - kept[i].last > BRIDGE {
        assert kept[i] in kept;
        var j :| 0 <= j < |front| && front[j] == kept[i];
        assert runs[j] == kept[i];
      }
    }
  }

  function VoicedOf(env: seq<real>, threshold: real): (v: seq<bool>)
    ensures |v| == |env| && forall i :: 0 <= i < |env| ==> (v[i] <==> env[i] > threshold)
  {
    seq(|env|, i requires 0 <= i < |env| => env[i] > threshold)
  }

  /** `max(floor * 2.2, peak * 0.075)` over the 10th and 95th percentile of the envelope. */
  function Threshold(env: seq<real>): real
    requires env != []
  {
    var ordered := Sort(env, (a: real, b: real) => a <= b);
    assert |multiset(ordered)| == |multiset(env)|;
    var lo, hi := (|env| as real * 0.10).Floor, (|env| as real * 0.95).Floor;
    var floor, peak := ordered[lo] * 2.2, ordered[hi] * 0.075;
    if floor >= peak then floor else peak
  }

  /** `v` stands at position `k` when the values are sorted. */
  ghost predicate RanksAt(env: seq<real>, k: int, v: real) {
    |Filter(env, x => x < v)| <= k < |Filter(env, x => x <= v)|
  }

  lemma SortedRanks(env: seq<real>, k: nat)
    requires k < |env|
    ensures |Sort(env, (a: real, b: real) => a <= b)| == |env|
    ensures RanksAt(env, k, Sort(env, (a: real, b: real) => a <= b)[k])
  {
    var le := (a: real, b: real) => a <= b;
    var ordered := Sort(env, le);
    SortMembers(env, le);
    SortSorted(env, le);
    var v := ordered[k];
    SortCounts(env, le, x => x < v);
    SortCounts(env, le, x => x <= v);
    RankInSorted(ordered, k);
  }

  lemma RankInSorted(ordered: seq<real>, k: nat)
    requires k < |ordered| && forall i, j :: 0 <= i < j < |ordered| ==> ordered[i] <= ordered[j]
    ensures RanksAt(ordered, k, ordered[k])
  {
    var v := ordered[k];
    assert ordered == ordered[..k] + ordered[k..] && ordered == ordered[..k + 1] + ordered[k + 1..];
    FilterConcat(ordered[..k], ordered[k..], x => x < v);
    FilterSize(ordered[..k], x => x < v);
    FilterSize(ordered[k..], x => x < v);
    FilterConcat(ordered[..k + 1], ordered[k + 1..], x => x <= v);
    FilterSize(ordered[..k + 1], x => x <= v);
  }

  /** The threshold is the larger of 2.2 times the 10th percentile and 0.075 times the 95th. */
  lemma ThresholdMeaning(env: seq<real>) returns (low: real, high: real)
    requires env != []
    ensures RanksAt(env, |env| / 10, low) && RanksAt(env, |env| * 95 / 100, high)
    ensures Threshold(env) == if 2.2 * low >= 0.075 * high then 2.2 * low else 0.075 * high
  {
    var ordered := Sort(env, (a: real, b: real) => a <= b);
    var lo, hi := (|env| as real * 0.10).Floor, (|env| as real * 0.95).Floor;
    Percentile(|env|);
    SortedRanks(env, lo);
    SortedRanks(env, hi);
    low, high := ordered[lo], ordered[hi];
  }

  lemma Percentile(n: nat)
    requires n > 0
    ensures (n as real * 0.10).Floor == n / 10 && (n as real * 0.95).Floor == n * 95 / 100 < n
  {
    assert n as real * 0.10 == (n / 10) as real + (n % 10) as real * 0.10;
    assert n as real * 0.95 == (n * 95 / 100) as real + (n * 95 % 100) as real * 0.01 by {
      assert n * 95 == 100 * (n * 95 / 100) + n * 95 % 100;
      assert (n * 95) as real == 100.0 * (n * 95 / 100) as real + (n * 95 % 100) as real;
    }
  }

  /** What `speech_segments` returns: ordered, separated by real pauses, inside the envelope. */
  ghost predicate GoodSegments(segs: seq<Segment>, length: nat) {
    && segs != []
    && Separated(segs)
    && Bounded(segs, length)
  }

  /** Long segments, or the whole recording when none is long. */
  function SegmentsOf(voiced: seq<bool>): seq<Segment> {
    var kept := KeepLong(Runs(voiced, |voiced|));
    if kept == [] then [Segment(0, |voiced| - 1)] else kept
  }

  lemma KeptBounded(runs: seq<Segment>, n: nat)
    requires Bounded(runs, n)
    ensures Bounded(KeepLong(runs), n)
  {
    var kept := KeepLong(runs);
    forall i | 0 <= i < |kept| ensures 0 <= kept[i].first <= kept[i].last < n {
      assert kept[i] in kept;
    }
  }

  lemma SegmentsAreGood(voiced: seq<bool>)
    requires voiced != []
    ensures GoodSegments(SegmentsOf(voiced), |voiced|)
  {
    var runs := Runs(voiced, |voiced|);
    RunsSeparated(voiced, |voiced|);
    KeepLongSeparated(runs);
    KeptBounded(runs, |voiced|);
  }

  /** Speech is lost only in runs that are too short, and only if some run is long enough. */
  lemma SpeechIsKept(voiced: seq<bool>, k: nat)
    requires k < |voiced| && voiced[k]
    ensures || InSome(SegmentsOf(voiced), k)
            || exists s :: s in Runs(voiced, |voiced|) && s.first <= k <= s.last && s.last - s.first < 9
  {
    var runs := Runs(voiced, |voiced|);
    RunsCover(voiced, |voiced|);
    assert InSome(runs, k);
    var i :| 0 <= i < |runs| && runs[i].first <= k <= runs[i].last;
    assert runs[i] in runs;
    var segs := SegmentsOf(voiced);
    if KeepLong(runs) == [] {
      assert segs[0].first <= k <= segs[0].last;
    } else if LongEnough(runs[i]) {
      assert runs[i] in segs;
      var j :| 0 <= j < |segs| && segs[j] == runs[i];
    }
  }

  /** Only runs of at least 90 ms are kept; if no run is that long, the whole recording is one segment. */
  lemma KeptAreLong(voiced: seq<bool>)
    ensures var segs, runs := SegmentsOf(voiced), Runs(voiced, |voiced|);
      if exists s :: s in runs && s.last - s.first >= 9 then
        forall s :: s in segs <==> s in runs && s.last - s.first >= 9
      else segs == [Segment(0, |voiced| - 1)]
  {
    var kept := KeepLong(Runs(voiced, |voiced|));
    if kept != [] {
      assert kept[0] in kept;
    }
  }

  /** The scan: extend the last run in place or start a new one. */
  method Scan(voiced: seq<bool>) returns (runs: seq<Segment>)
    ensures runs == Runs(voiced, |voiced|)
  {
    runs := [];
    for i := 0 to |voiced|
      invariant runs == Runs(voiced, i)
    {
      if !voiced[i] {
        continue;
      }
      if runs != [] && i - runs[|runs| - 1].last <= BRIDGE {
        var grown := runs[|runs| - 1].(last := i);
        assert runs[|runs| - 1 := grown] == runs[..|runs| - 1] + [grown];
        runs := runs[|runs| - 1 := grown];
      } else {
        runs := runs + [Segment(i, i)];
      }
    }
  }

  /** `speech_segments`, for an envelope with at least one frame. */
  method FindSegments(env: seq<real>) returns (segs: seq<Segment>)
    requires env != []
    ensures GoodSegments(segs, |env|)
    ensures segs == SegmentsOf(VoicedOf(env, Threshold(env)))
  {
    var voiced := VoicedOf(env, Threshold(env));
    var runs := Scan(voiced);
    SegmentsAreGood(voiced);
    var kept := KeepLong(runs);
    segs := if kept == [] then [Segment(0, |env| - 1)] else kept;
    assert |voiced| == |env|;
    assert segs == SegmentsOf(voiced);
  }

  // ---- pauses and sentences ----

  /** A pause after segment `index`. */
  datatype Gap = Gap(size: int, index: int)

  function Gaps(segs: seq<Segment>): (gs: seq<Gap>)
    ensures |gs| == if segs == [] then 0 else |segs| - 1
    ensures forall i :: 0 <= i < |gs| ==> gs[i] == Gap(segs[i + 1].first - segs[i].last, i)
  {
    if segs == [] then []
    else seq(|segs| - 1, i requires 0 <= i < |segs| - 1 => Gap(segs[i + 1].first - segs[i].last, i))
  }

  /** Descending order on `(size, index)` pairs: `sort(reverse=True)`. */
  predicate LongerFirst(a: Gap, b: Gap) {
    a.size > b.size || (a.size == b.size && a.index >= b.index)
  }

  predicate Ascending(a: int, b: int) {
    a <= b
  }

  function Indices(gs: seq<Gap>): (r: seq<int>)
    ensures |r| == |gs| && forall i :: 0 <= i < |gs| ==> r[i] == gs[i].index
  {
    seq(|gs|, i requires 0 <= i < |gs| => gs[i].index)
  }

  function Longest(segs: seq<Segment>, count: nat): seq<Gap> {
    var sorted := Sort(Gaps(segs), LongerFirst);
    if count <= |sorted| then sorted[..count] else sorted
  }

  /** The cut positions: the longest pauses, back in chronological order. */
  function Cuts(segs: seq<Segment>, sentences: nat): seq<int> {
    Sort(Indices(Longest(segs, if sentences == 0 then 0 else sentences - 1)), Ascending)
  }

  /** The frames between segment `i` and the next one. */
  function GapSize(segs: seq<Segment>, i: int): int {
    if 0 <= i < |segs| - 1 then segs[i + 1].first - segs[i].last else 0
  }

  /** No pause that is not a cut is longer than a cut; of equally long pauses the later ones are cuts. */
  ghost predicate LongestPauses(segs: seq<Segment>, cuts: seq<int>) {
    forall i, j :: i in cuts && 0 <= j < |segs| - 1 && j !in cuts ==> Beats(segs, i, j)
  }

  ghost predicate Beats(segs: seq<Segment>, i: int, j: int) {
    GapSize(segs, i) > GapSize(segs, j) || (GapSize(segs, i) == GapSize(segs, j) && i > j)
  }

  ghost predicate CutsOk(segs: seq<Segment>, cuts: seq<int>, sentences: nat) {
    && |cuts| == sentences - 1
    && (forall i :: 0 <= i < |cuts| ==> 0 <= cuts[i] < |segs| - 1)
    && StrictlyUp(cuts)
    && LongestPauses(segs, cuts)
  }

  lemma DistinctBySort<T(!new)>(s: seq<T>, le: (T, T) -> bool)
    requires Distinct(s)
    ensures Distinct(Sort(s, le))
  {
    var r := Sort(s, le);
    forall i, j | 0 <= i < j < |r| ensures r[i] != r[j] {
      if r[i] == r[j] {
        TwiceInMultiset(r, i, j);
        OnceInMultiset(s, r[i]);
      }
    }
  }

  lemma TwiceInMultiset<T>(s: seq<T>, i: nat, j: nat)
    requires i < j < |s| && s[i] == s[j]
    ensures multiset(s)[s[i]] >= 2
  {
    assert s == s[..j] + [s[j]] + s[j + 1..];
    assert s[..j][i] == s[i];
  }

  lemma {:induction false} OnceInMultiset<T(!new)>(s: seq<T>, x: T)
    requires Distinct(s)
    ensures multiset(s)[x] <= 1
  {
    if s != [] {
      assert s == [s[0]] + s[1..];
      OnceInMultiset(s[1..], x);
      if x == s[0] {
        assert x !in s[1..];
      }
    }
  }

  lemma GapByIndex(segs: seq<Segment>, sorted: seq<Gap>, i: nat, j: nat)
    requires i < j < |sorted| && Distinct(sorted) && forall g :: g in sorted ==> g in Gaps(segs)
    ensures sorted[i].index != sorted[j].index
  {
    assert sorted[i] in sorted && sorted[j] in sorted;
    var a :| 0 <= a < |Gaps(segs)| && Gaps(segs)[a] == sorted[i];
    var b :| 0 <= b < |Gaps(segs)| && Gaps(segs)[b] == sorted[j];
  }

  /** The sorted pauses are the pauses, each once, longest first. */
  lemma SortedGaps(segs: seq<Segment>)
    ensures var sorted := Sort(Gaps(segs), LongerFirst);
      && |sorted| == |Gaps(segs)| && SortedBy(sorted, LongerFirst) && Distinct(sorted)
      && (forall g :: g in sorted ==> g in Gaps(segs)) && (forall g :: g in Gaps(segs) ==> g in sorted)
  {
    SortMembers(Gaps(segs), LongerFirst);
    SortSorted(Gaps(segs), LongerFirst);
    DistinctBySort(Gaps(segs), LongerFirst);
  }

  lemma PickedAreDistinct(segs: seq<Segment>, sorted: seq<Gap>, count: nat)
    requires count <= |sorted| && Distinct(sorted) && forall g :: g in sorted ==> g in Gaps(segs)
    ensures Distinct(Indices(sorted[..count]))
    ensures forall i :: i in Indices(sorted[..count]) ==> 0 <= i < |segs| - 1
  {
    var picked := Indices(sorted[..count]);
    forall i, j | 0 <= i < j < |picked| ensures picked[i] != picked[j] {
      GapByIndex(segs, sorted, i, j);
    }
    forall i | i in picked ensures 0 <= i < |segs| - 1 {
      var k :| 0 <= k < |picked| && picked[k] == i;
      assert sorted[k] in sorted;
    }
  }

  ghost predicate StrictlyUp(cuts: seq<int>) {
    forall i, j :: 0 <= i < j < |cuts| ==> cuts[i] < cuts[j]
  }

  lemma SortUp(picked: seq<int>)
    requires Distinct(picked)
    ensures var cuts := Sort(picked, Ascending);
      |cuts| == |picked| && StrictlyUp(cuts) && forall x :: x in cuts <==> x in picked
  {
    SortMembers(picked, Ascending);
    SortSorted(picked, Ascending);
    DistinctBySort(picked, Ascending);
  }

  /** With a pause for every sentence boundary, the cuts are distinct, in order, and the longest pauses. */
  lemma CutsAreLongest(segs: seq<Segment>, sentences: nat)
    requires 1 <= sentences <= |segs|
    ensures CutsOk(segs, Cuts(segs, sentences), sentences)
  {
    var sorted := Sort(Gaps(segs), LongerFirst);
    SortedGaps(segs);
    var count: nat := sentences - 1;
    LongestAre(segs, count);
    CutsOfSorted(segs, sorted, count);
  }

  lemma LongestAre(segs: seq<Segment>, count: nat)
    requires count <= |Sort(Gaps(segs), LongerFirst)|
    ensures Cuts(segs, count + 1) == Sort(Indices(Sort(Gaps(segs), LongerFirst)[..count]), Ascending)
  {
  }

  lemma CutsOfSorted(segs: seq<Segment>, sorted: seq<Gap>, count: nat)
    requires count <= |sorted| && SortedBy(sorted, LongerFirst) && Distinct(sorted)
    requires (forall g :: g in sorted ==> g in Gaps(segs)) && (forall g :: g in Gaps(segs) ==> g in sorted)
    ensures CutsOk(segs, Sort(Indices(sorted[..count]), Ascending), count + 1)
  {
    var picked := Indices(sorted[..count]);
    PickedAreDistinct(segs, sorted, count);
    SortUp(picked);
    CutsInRange(segs, Sort(picked, Ascending));
    CutsBeatOthers(segs, sorted, count, Sort(picked, Ascending));
  }

  lemma CutsInRange(segs: seq<Segment>, cuts: seq<int>)
    requires forall i :: i in cuts ==> 0 <= i < |segs| - 1
    ensures forall i :: 0 <= i < |cuts| ==> 0 <= cuts[i] < |segs| - 1
  {
    forall i | 0 <= i < |cuts| ensures 0 <= cuts[i] < |segs| - 1 {
      assert cuts[i] in cuts;
    }
  }

  lemma CutsBeatOthers(segs: seq<Segment>, sorted: seq<Gap>, count: nat, cuts: seq<int>)
    requires count <= |sorted| && SortedBy(sorted, LongerFirst)
    requires (forall g :: g in sorted ==> g in Gaps(segs)) && (forall g :: g in Gaps(segs) ==> g in sorted)
    requires forall i :: i in cuts <==> i in Indices(sorted[..count])
    ensures LongestPauses(segs, cuts)
  {
    forall i, j | i in cuts && 0 <= j < |segs| - 1 && j !in cuts ensures Beats(segs, i, j) {
      CutBeatsOther(segs, sorted, count, i, j);
    }
  }

  lemma CutBeatsOther(segs: seq<Segment>, sorted: seq<Gap>, count: nat, i: int, j: int)
    requires count <= |sorted| && SortedBy(sorted, LongerFirst)
    requires (forall g :: g in sorted ==> g in Gaps(segs)) && (forall g :: g in Gaps(segs) ==> g in sorted)
    requires i in Indices(sorted[..count]) && 0 <= j < |segs| - 1 && j !in Indices(sorted[..count])
    ensures Beats(segs, i, j)
  {
    var picked := Indices(sorted[..count]);
    var a :| 0 <= a < |picked| && picked[a] == i;
    GapSizeAt(segs, sorted[a]);
    forall k | 0 <= k < count ensures sorted[k].index != j {
      assert picked[k] in picked;
    }
    var b := Position(segs, sorted, j);
    assert LongerFirst(sorted[a], sorted[b]);
  }

  lemma GapSizeAt(segs: seq<Segment>, g: Gap)
    requires g in Gaps(segs)
    ensures 0 <= g.index < |segs| - 1 && g.size == GapSize(segs, g.index)
  {
  }

  lemma Position(segs: seq<Segment>, sorted: seq<Gap>, j: nat) returns (b: nat)
    requires j < |segs| - 1 && forall g :: g in Gaps(segs) ==> g in sorted
    ensures b < |sorted| && sorted[b].index == j && sorted[b].size == GapSize(segs, j)
  {
    assert Gaps(segs)[j] in sorted;
    b :| 0 <= b < |sorted| && sorted[b] == Gaps(segs)[j];
  }

  function Flatten<T>(groups: seq<seq<T>>): seq<T> {
    if groups == [] then [] else Flatten(groups[..|groups| - 1]) + groups[|groups| - 1]
  }

  /** One group of segments for every sentence, none empty, in order, together all the segments. */
  ghost predicate Partition(segs: seq<Segment>, groups: seq<seq<Segment>>, sentences: nat) {
    && |groups| == sentences
    && (forall i :: 0 <= i < |groups| ==> groups[i] != [])
    && Flatten(groups) == segs
  }

  /**
   * The grouping of `align`. With fewer segments than sentences everything is one run; otherwise there is one
   * non-empty group per sentence, cut at the longest pauses. A script without sentences makes the source fail.
   */
  method GroupSegments(segs: seq<Segment>, sentences: nat)
    returns (groups: Result<seq<seq<Segment>>, string>, ghost cuts: seq<int>)
    requires segs != []
    ensures groups.Err? <==> sentences == 0
    ensures groups.Ok? && |segs| < sentences ==> groups.value == [segs]
    ensures groups.Ok? && |segs| >= sentences ==>
              Partition(segs, groups.value, sentences) && CutsOk(segs, cuts, sentences)
              && EndAtCuts(groups.value, cuts)
  {
    cuts := [];
    if |segs| < sentences {
      return Ok([segs]), cuts;
    }
    if sentences == 0 {
      return Err("list index out of range"), cuts;
    }
    CutsAreLongest(segs, sentences);
    cuts := Cuts(segs, sentences);
    var result := SplitAt(segs, Cuts(segs, sentences));
    return Ok(result), cuts;
  }

  /** The groups so far end right after the cuts so far. */
  ghost predicate EndAtCuts(groups: seq<seq<Segment>>, cuts: seq<int>) {
    forall j :: 0 <= j < |groups| && j < |cuts| ==> EndsAt(groups, j, cuts[j] + 1)
  }

  /** Group `j` is not empty and brings the segments covered so far to `end`. */
  ghost predicate EndsAt(groups: seq<seq<Segment>>, j: nat, end: int)
    requires j < |groups|
  {
    groups[j] != [] && |Flatten(groups[..j + 1])| == end
  }

  lemma EndsStay(groups: seq<seq<Segment>>, g: seq<Segment>, cuts: seq<int>)
    requires EndAtCuts(groups, cuts)
    requires |groups| < |cuts| ==> g != [] && |Flatten(groups)| + |g| == cuts[|groups|] + 1
    ensures EndAtCuts(groups + [g], cuts)
  {
    var more := groups + [g];
    forall j | 0 <= j < |more| && j < |cuts| ensures EndsAt(more, j, cuts[j] + 1) {
      EndsAtCut(groups, g, cuts, j);
    }
  }

  lemma EndsAtCut(groups: seq<seq<Segment>>, g: seq<Segment>, cuts: seq<int>, j: nat)
    requires EndAtCuts(groups, cuts) && j <= |groups| && j < |cuts|
    requires |groups| < |cuts| ==> g != [] && |Flatten(groups)| + |g| == cuts[|groups|] + 1
    ensures EndsAt(groups + [g], j, cuts[j] + 1)
  {
    if j < |groups| {
      assert EndsAt(groups, j, cuts[j] + 1);
      EndStays(groups, g, j, cuts[j] + 1);
    } else {
      LastEnds(groups, g);
    }
  }

  lemma LastEnds(groups: seq<seq<Segment>>, g: seq<Segment>)
    requires g != []
    ensures EndsAt(groups + [g], |groups|, |Flatten(groups)| + |g|)
  {
    FlattenSnoc(groups, g);
    assert (groups + [g])[..|groups| + 1] == groups + [g];
  }

  lemma EndStays(groups: seq<seq<Segment>>, g: seq<Segment>, j: nat, end: int)
    requires j < |groups| && EndsAt(groups, j, end)
    ensures EndsAt(groups + [g], j, end)
  {
    assert (groups + [g])[..j + 1] == groups[..j + 1];
  }

  method SplitAt(segs: seq<Segment>, cuts: seq<int>) returns (result: seq<seq<Segment>>)
    requires StrictlyUp(cuts) && forall i :: 0 <= i < |cuts| ==> 0 <= cuts[i] < |segs| - 1
    requires segs != []
    ensures Partition(segs, result, |cuts| + 1) && EndAtCuts(result, cuts)
  {
    result := [];
    var start := 0;
    for i := 0 to |cuts|
      invariant |result| == i && start == (if i == 0 then 0 else cuts[i - 1] + 1) < |segs|
      invariant start >= 0 && Flatten(result) == segs[..start]
      invariant EndAtCuts(result, cuts)
    {
      var cut := cuts[i];
      assert start <= cut;
      EndsStay(result, segs[start..cut + 1], cuts);
      FlattenSnoc(result, segs[start..cut + 1]);
      assert segs[..cut + 1] == segs[..start] + segs[start..cut + 1];
      result := result + [segs[start..cut + 1]];
      start := cut + 1;
    }
    EndsStay(result, segs[start..], cuts);
    FlattenSnoc(result, segs[start..]);
    assert segs == segs[..start] + segs[start..];
    result := result + [segs[start..]];
    forall i | 0 <= i < |result| ensures result[i] != [] {
      if i < |cuts| {
        assert EndsAt(result, i, cuts[i] + 1);
      }
    }
  }

  lemma FlattenSnoc<T>(groups: seq<seq<T>>, g: seq<T>)
    ensures Flatten(groups + [g]) == Flatten(groups) + g
  {
    assert (groups + [g])[..|groups|] == groups;
  }
}
