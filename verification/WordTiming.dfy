/**
 * Word timings of a clip (`align-mascot-audio.py`, `align`): sentences get groups of speech segments, words are laid
 * over them, and a last pass over the list in place spaces the words out.
 */
module WordTiming {
  import opened Common
  import SS = SpeechSegments
  import opened SpeechLayout

  datatype Cue = Cue(startMs: int, endMs: int)

  // ---- the last pass ----

  const STEP_MS := 40
  const SHORTEST_MS := 60

  function Larger(a: int, b: int): int {
    if a >= b then a else b
  }

  /** Where the last pass puts the start of word `i`. */
  function TidyStart(cues: seq<Cue>, i: nat): int
    requires i < |cues|
  {
    if i == 0 then cues[0].startMs else Larger(cues[i].startMs, TidyStart(cues, i - 1) + STEP_MS)
  }

  function TidyCue(cues: seq<Cue>, i: nat): Cue
    requires i < |cues|
  {
    if i == 0 then cues[0] else Cue(TidyStart(cues, i), Larger(cues[i].endMs, TidyStart(cues, i) + SHORTEST_MS))
  }

  function Tidied(cues: seq<Cue>): (r: seq<Cue>)
    ensures |r| == |cues|
  {
    seq(|cues|, i requires 0 <= i < |cues| => TidyCue(cues, i))
  }

  /** The last pass, in place and from left to right. */
  method Tidy(cues: array<Cue>)
    modifies cues
    ensures cues[..] == Tidied(old(cues[..]))
  {
    ghost var was := cues[..];
    if cues.Length == 0 {
      return;
    }
    for i := 1 to cues.Length
      invariant forall k :: 0 <= k < i ==> cues[k] == TidyCue(was, k)
      invariant forall k :: i <= k < cues.Length ==> cues[k] == was[k]
    {
      cues[i] := cues[i].(startMs := Larger(cues[i].startMs, cues[i - 1].startMs + STEP_MS));
      cues[i] := cues[i].(endMs := Larger(cues[i].endMs, cues[i].startMs + SHORTEST_MS));
    }
  }

  /** Later words start at least 40 ms after the word before and last at least 60 ms. */
  ghost predicate Spaced(cues: seq<Cue>) {
    forall i :: 1 <= i < |cues| ==>
      cues[i].startMs >= cues[i - 1].startMs + 40 && cues[i].endMs >= cues[i].startMs + 60
  }

  /** A start is the latest time some word up to it forces on it. */
  lemma {:induction false} StartIsForced(cues: seq<Cue>, i: nat) returns (from: nat)
    requires i < |cues|
    ensures from <= i && TidyStart(cues, i) == cues[from].startMs + STEP_MS * (i - from)
    ensures forall j :: 0 <= j <= i ==> TidyStart(cues, i) >= cues[j].startMs + STEP_MS * (i - j)
  {
    if i == 0 {
      from := 0;
    } else {
      from := StartIsForced(cues, i - 1);
      if cues[i].startMs >= TidyStart(cues, i - 1) + STEP_MS {
        from := i;
      }
    }
  }

  /**
   * Any spaced list whose words start and end no earlier than given, from the same first word, is at least this late.
   */
  lemma {:induction false} TidiedIsEarliest(cues: seq<Cue>, other: seq<Cue>, i: nat)
    requires |other| == |cues| && i < |cues| && Spaced(other) && other[0].startMs >= cues[0].startMs
    requires forall k :: 0 <= k < |cues| ==> other[k].startMs >= cues[k].startMs && other[k].endMs >= cues[k].endMs
    ensures other[i].startMs >= Tidied(cues)[i].startMs && other[i].endMs >= Tidied(cues)[i].endMs
  {
    if i > 0 {
      TidiedIsEarliest(cues, other, i - 1);
      assert Tidied(cues)[i - 1].startMs == TidyStart(cues, i - 1);
    }
  }

  /** The last pass spaces the words out, never moves anything earlier, and leaves exactly the spaced lists alone. */
  lemma TidiedIsSpaced(cues: seq<Cue>)
    ensures Spaced(Tidied(cues))
    ensures forall i :: 0 <= i < |cues| ==>
              Tidied(cues)[i].startMs >= cues[i].startMs && Tidied(cues)[i].endMs >= cues[i].endMs
    ensures Tidied(cues) == cues <==> Spaced(cues)
  {
    var r := Tidied(cues);
    if Spaced(cues) {
      forall i | 0 <= i < |cues| ensures r[i] == cues[i] {
        SpacedStays(cues, i);
      }
    }
  }

  lemma {:induction false} SpacedStays(cues: seq<Cue>, i: nat)
    requires Spaced(cues) && i < |cues|
    ensures TidyStart(cues, i) == cues[i].startMs && TidyCue(cues, i) == cues[i]
  {
    if i > 0 {
      SpacedStays(cues, i - 1);
    }
  }

  /** Starts that already come in order move at most 40 ms per earlier word. */
  lemma DelayIsBounded(cues: seq<Cue>, i: nat)
    requires i < |cues| && forall j, k :: 0 <= j <= k < |cues| ==> cues[j].startMs <= cues[k].startMs
    ensures cues[i].startMs <= Tidied(cues)[i].startMs <= cues[i].startMs + STEP_MS * i
  {
    var from := StartIsForced(cues, i);
    assert cues[from].startMs <= cues[i].startMs;
  }

  lemma DelaysAreBounded(cues: seq<Cue>)
    requires forall j, k :: 0 <= j <= k < |cues| ==> cues[j].startMs <= cues[k].startMs
    ensures SlightlyLater(cues, Tidied(cues))
  {
    forall i | 0 <= i < |cues|
      ensures cues[i].startMs <= Tidied(cues)[i].startMs <= cues[i].startMs + STEP_MS * i
    {
      DelayIsBounded(cues, i);
    }
  }

  // ---- rounding ----

  /** Python's `round`: to the nearest integer, ties to the even one. */
  function Round(x: real): int {
    var low := x.Floor;
    var part := x - low as real;
    if part < 0.5 then low
    else if part > 0.5 then low + 1
    else if low % 2 == 0 then low
    else low + 1
  }

  lemma RoundMonotone(x: real, y: real)
    requires x <= y
    ensures Round(x) <= Round(y)
    ensures -0.5 <= Round(x) as real - x <= 0.5
    ensures (Round(x) as real - x == 0.5 || Round(x) as real - x == -0.5) ==> Round(x) % 2 == 0
  {
    assert x.Floor <= y.Floor;
  }

  function MaxReal(a: real, b: real): real {
    if a >= b then a else b
  }

  function MinReal(a: real, b: real): real {
    if a <= b then a else b
  }

  function ToCue(t: Timing, duration: real): Cue {
    Cue(Round(MaxReal(0.0, t.start) * 1000.0), Round(MinReal(duration, t.end) * 1000.0))
  }

  function ToCues(times: seq<Timing>, duration: real): (r: seq<Cue>)
    ensures |r| == |times|
  {
    seq(|times|, i requires 0 <= i < |times| => ToCue(times[i], duration))
  }

  // ---- the whole alignment ----

  /** There are 100 frames in a second, and the last frame belongs to the segment. */
  function ToSpan(s: SS.Segment): (r: Span)
    ensures 100.0 * r.start == s.first as real && 100.0 * r.end == (s.last + 1) as real
  {
    Span((s.first * SS.FRAME_MS) as real / 1000.0, ((s.last + 1) * SS.FRAME_MS) as real / 1000.0)
  }

  function ToSpans(group: seq<SS.Segment>): (r: seq<Span>)
    ensures |r| == |group|
  {
    seq(|group|, i requires 0 <= i < |group| => ToSpan(group[i]))
  }

  /** Segments that are apart become ordered spans. */
  lemma SpansOrdered(group: seq<SS.Segment>)
    requires SS.Separated(group) && forall i :: 0 <= i < |group| ==> group[i].first <= group[i].last
    ensures Ordered(ToSpans(group))
  {
  }

  /** Where the words of one sentence lie. */
  ghost predicate LaidOver(group: seq<SS.Segment>, weights: seq<nat>, times: seq<Timing>) {
    && group != [] && Ordered(ToSpans(group))
    && var spans := ToSpans(group);
    PlacedUpTo(spans, Shares(SpeechTime(spans), weights, TotalWeight(weights)), |weights|, times, LastEnd(spans, times))
  }

  ghost predicate AllLaid(groups: seq<seq<SS.Segment>>, scripts: seq<seq<nat>>, laid: seq<seq<Timing>>) {
    && |groups| == |scripts| >= |laid|
    && forall k :: 0 <= k < |laid| ==> LaidOver(groups[k], scripts[k], laid[k])
  }

  /** Every word ends before any later word starts. */
  ghost predicate Chronological(times: seq<Timing>) {
    && (forall i :: 0 <= i < |times| ==> times[i].start <= times[i].end)
    && (forall i, j :: 0 <= i < j < |times| ==> times[i].end <= times[j].start)
  }

  lemma {:induction false} SentenceInOrder(spans: seq<Span>, needs: seq<real>, times: seq<Timing>, i: nat, j: nat)
    requires spans != [] && i < j < |times| == |needs|
    requires forall k :: 0 <= k < |times| ==> Placed(spans, needs, k, times[k])
    requires forall k :: 0 <= k < |times| - 1 ==> times[k].end == times[k + 1].start
    ensures times[i].end <= times[j].start
  {
    if i + 1 < j {
      SentenceInOrder(spans, needs, times, i, j - 1);
      assert Placed(spans, needs, j - 1, times[j - 1]);
    }
  }

  /** A sentence stays between the start of its first segment and the end of its last one. */
  lemma SentenceInGroup(group: seq<SS.Segment>, weights: seq<nat>, times: seq<Timing>)
    requires LaidOver(group, weights, times)
    ensures Chronological(times)
    ensures forall i :: 0 <= i < |times| ==>
              ToSpan(group[0]).start <= times[i].start <= times[i].end <= ToSpan(group[|group| - 1]).end
  {
    var spans := ToSpans(group);
    var needs := Shares(SpeechTime(spans), weights, TotalWeight(weights));
    forall i | 0 <= i < |times|
      ensures ToSpan(group[0]).start <= times[i].start <= times[i].end <= ToSpan(group[|group| - 1]).end
    {
      assert Placed(spans, needs, i, times[i]);
      SpeechBounds(spans, times[i].start);
      SpeechBounds(spans, times[i].end);
    }
    forall i, j | 0 <= i < j < |times| ensures times[i].end <= times[j].start {
      SentenceInOrder(spans, needs, times, i, j);
    }
  }

  lemma SpeechBounds(spans: seq<Span>, t: real)
    requires spans != [] && Ordered(spans) && InSpeech(spans, t)
    ensures spans[0].start <= t <= spans[|spans| - 1].end
  {
  }

  function LastFrame(group: seq<SS.Segment>): int {
    if group == [] then 0 else group[|group| - 1].last
  }

  /** The groups follow one another in time. */
  ghost predicate GroupsInOrder(groups: seq<seq<SS.Segment>>) {
    && (forall k :: 0 <= k < |groups| ==> groups[k] != [] && groups[k][0].first <= LastFrame(groups[k]))
    && (forall k, m :: 0 <= k < m < |groups| ==> LastFrame(groups[k]) < groups[m][0].first)
  }

  /** Words of the whole script come in order, across sentences too. */
  lemma {:induction false} ScriptInOrder(groups: seq<seq<SS.Segment>>, scripts: seq<seq<nat>>, laid: seq<seq<Timing>>)
    requires AllLaid(groups, scripts, laid) && GroupsInOrder(groups)
    ensures Chronological(SS.Flatten(laid))
    ensures laid != [] ==> forall t: Timing :: t in SS.Flatten(laid) ==> t.end <= GroupEnd(groups[|laid| - 1])
  {
    if laid != [] {
      var n := |laid| - 1;
      var front, last := laid[..n], laid[n];
      ScriptInOrder(groups, scripts, front);
      SentenceInGroup(groups[n], scripts[n], last);
      if n > 0 {
        GroupEndBefore(groups, n);
      }
      assert SS.Flatten(laid) == SS.Flatten(front) + last;
      assert forall t: Timing :: t in SS.Flatten(front) ==> t.end <= ToSpan(groups[n][0]).start;
      AppendInOrder(SS.Flatten(front), last, ToSpan(groups[n][0]).start);
    }
  }

  function GroupEnd(group: seq<SS.Segment>): real {
    if group == [] then 0.0 else ToSpan(group[|group| - 1]).end
  }

  lemma GroupEndBefore(groups: seq<seq<SS.Segment>>, n: nat)
    requires 0 < n < |groups| && GroupsInOrder(groups)
    ensures GroupEnd(groups[n - 1]) <= ToSpan(groups[n][0]).start <= GroupEnd(groups[n])
  {
    assert LastFrame(groups[n - 1]) < groups[n][0].first;
  }

  lemma AppendInOrder(a: seq<Timing>, b: seq<Timing>, at: real)
    requires Chronological(a) && Chronological(b)
    requires (forall t: Timing :: t in a ==> t.end <= at) && (forall i :: 0 <= i < |b| ==> at <= b[i].start)
    ensures Chronological(a + b)
  {
    forall i, j | 0 <= i < j < |a + b| ensures (a + b)[i].end <= (a + b)[j].start {
      if i < |a| {
        assert a[i] in a;
      }
    }
  }

  /** How many segments lie before group `k`. */
  function Before(groups: seq<seq<SS.Segment>>, k: nat): nat
    requires k <= |groups|
  {
    |SS.Flatten(groups[..k])|
  }

  /** A group is a stretch of the segments. */
  lemma {:induction false} GroupAt(groups: seq<seq<SS.Segment>>, k: nat)
    requires k < |groups|
    ensures var segs := SS.Flatten(groups);
      && Before(groups, k + 1) == Before(groups, k) + |groups[k]| <= |segs|
      && groups[k] == segs[Before(groups, k)..Before(groups, k + 1)]
    decreases |groups|
  {
    var n := |groups| - 1;
    var front := groups[..n];
    assert groups[..k + 1][..k] == groups[..k];
    if k < n {
      GroupAt(front, k);
      assert front[..k] == groups[..k] && front[..k + 1] == groups[..k + 1];
    } else {
      assert groups[..n + 1] == groups;
    }
  }

  lemma {:induction false} BeforeGrows(groups: seq<seq<SS.Segment>>, k: nat, m: nat)
    requires k <= m <= |groups|
    ensures Before(groups, k) <= Before(groups, m)
    decreases m
  {
    if k < m {
      BeforeGrows(groups, k, m - 1);
      assert groups[..m][..m - 1] == groups[..m - 1];
    }
  }

  lemma LaterGroup(segs: seq<SS.Segment>, groups: seq<seq<SS.Segment>>, k: nat, m: nat)
    requires SS.Flatten(groups) == segs && SS.Separated(segs) && k < m < |groups|
    requires groups[k] != [] && groups[m] != []
    ensures LastFrame(groups[k]) < groups[m][0].first
  {
    GroupAt(groups, k);
    GroupAt(groups, m);
    BeforeGrows(groups, k + 1, m);
    var i, j := Before(groups, k + 1) - 1, Before(groups, m);
    assert segs[i] == groups[k][|groups[k]| - 1] && segs[j] == groups[m][0];
  }

  lemma GroupIsSeparated(segs: seq<SS.Segment>, groups: seq<seq<SS.Segment>>, k: nat, length: nat)
    requires SS.Flatten(groups) == segs && SS.Separated(segs) && SS.Bounded(segs, length) && k < |groups|
    ensures SS.Separated(groups[k]) && SS.Bounded(groups[k], length)
  {
    GroupAt(groups, k);
    SliceIsSeparated(segs, Before(groups, k), Before(groups, k + 1), length);
  }

  lemma SliceIsSeparated(segs: seq<SS.Segment>, lo: nat, hi: nat, length: nat)
    requires lo <= hi <= |segs| && SS.Separated(segs) && SS.Bounded(segs, length)
    ensures SS.Separated(segs[lo..hi]) && SS.Bounded(segs[lo..hi], length)
  {
    var g := segs[lo..hi];
    assert forall i :: 0 <= i < |g| ==> g[i] == segs[lo + i];
  }

  /** The groups of a partition of separated segments are apart themselves and follow one another. */
  lemma GroupsFollow(segs: seq<SS.Segment>, groups: seq<seq<SS.Segment>>, length: nat)
    requires SS.GoodSegments(segs, length) && SS.Flatten(groups) == segs
    requires forall k :: 0 <= k < |groups| ==> groups[k] != []
    ensures GroupsInOrder(groups) && forall k :: 0 <= k < |groups| ==> Ordered(ToSpans(groups[k]))
  {
    forall k, m | 0 <= k < m < |groups| ensures LastFrame(groups[k]) < groups[m][0].first {
      LaterGroup(segs, groups, k, m);
    }
    forall k | 0 <= k < |groups|
      ensures Ordered(ToSpans(groups[k])) && groups[k][0].first <= LastFrame(groups[k])
    {
      GroupIsSeparated(segs, groups, k, length);
      SpansOrdered(groups[k]);
      OneGroupRises(groups[k], length);
    }
  }

  lemma OneGroupRises(group: seq<SS.Segment>, length: nat)
    requires group != [] && SS.Separated(group) && SS.Bounded(group, length)
    ensures group[0].first <= LastFrame(group)
  {
  }

  /** Rounded starts of a chronological script come in order. */
  lemma CuesInOrder(times: seq<Timing>, duration: real)
    requires Chronological(times)
    ensures forall j, k :: 0 <= j <= k < |times| ==>
              ToCues(times, duration)[j].startMs <= ToCues(times, duration)[k].startMs
  {
    var cues := ToCues(times, duration);
    forall j, k | 0 <= j <= k < |times| ensures cues[j].startMs <= cues[k].startMs {
      assert times[j].start <= times[k].start;
      RoundMonotone(MaxReal(0.0, times[j].start) * 1000.0, MaxReal(0.0, times[k].start) * 1000.0);
    }
  }

  /** A cue has its times in whole milliseconds, to the nearest one, and cut off at the ends of the clip. */
  ghost predicate Near(t: Timing, duration: real, c: Cue) {
    var start := if t.start >= 0.0 then t.start else 0.0;
    var end := if t.end <= duration then t.end else duration;
    && -0.5 <= c.startMs as real - 1000.0 * start <= 0.5
    && -0.5 <= c.endMs as real - 1000.0 * end <= 0.5
  }

  lemma CuesAreNear(times: seq<Timing>, duration: real)
    ensures forall i :: 0 <= i < |times| ==> Near(times[i], duration, ToCues(times, duration)[i])
  {
    forall i | 0 <= i < |times| ensures Near(times[i], duration, ToCues(times, duration)[i]) {
      var start, end := MaxReal(0.0, times[i].start) * 1000.0, MinReal(duration, times[i].end) * 1000.0;
      RoundMonotone(start, start);
      RoundMonotone(end, end);
    }
  }

  /** What the whole alignment of a clip satisfies, with the exact times of the words before rounding. */
  ghost predicate Aligned(segs: seq<SS.Segment>, sentences: seq<seq<nat>>, duration: real, times: seq<Timing>,
                          out: seq<Cue>) {
    && |times| == |SS.Flatten(sentences)|
    && Chronological(times)
    && out == Tidied(ToCues(times, duration))
    && (forall i :: 0 <= i < |times| ==> Near(times[i], duration, ToCues(times, duration)[i]))
    && Spaced(out)
    && SlightlyLater(ToCues(times, duration), out)
  }

  /** No word starts earlier, and none is delayed by more than 40 ms for each word before it. */
  ghost predicate SlightlyLater(cues: seq<Cue>, out: seq<Cue>) {
    && |out| == |cues|
    && forall i :: 0 <= i < |out| ==> cues[i].startMs <= out[i].startMs <= cues[i].startMs + 40 * i
  }

  /** The words of every sentence, or of the whole script as one run when the speaker makes too few pauses. */
  function Scripts(sentences: seq<seq<nat>>, segments: nat): seq<seq<nat>> {
    if segments < |sentences| then [SS.Flatten(sentences)] else sentences
  }

  lemma ScriptsKeepWords(sentences: seq<seq<nat>>, segments: nat)
    ensures SS.Flatten(Scripts(sentences, segments)) == SS.Flatten(sentences)
  {
    if segments < |sentences| {
      SS.FlattenSnoc([], SS.Flatten(sentences));
      assert [] + [SS.Flatten(sentences)] == [SS.Flatten(sentences)];
    }
  }

  lemma SameWordCount(groups: seq<seq<SS.Segment>>, scripts: seq<seq<nat>>, laid: seq<seq<Timing>>)
    requires AllLaid(groups, scripts, laid)
    ensures |SS.Flatten(laid)| == |SS.Flatten(scripts[..|laid|])|
  {
    forall k | 0 <= k < |laid| ensures |laid[k]| == |scripts[..|laid|][k]| {
      assert LaidOver(groups[k], scripts[k], laid[k]);
    }
    SameFlatSize(laid, scripts[..|laid|]);
  }

  lemma {:induction false} SameFlatSize<A, B>(xs: seq<seq<A>>, ys: seq<seq<B>>)
    requires |xs| == |ys| && forall k :: 0 <= k < |xs| ==> |xs[k]| == |ys[k]|
    ensures |SS.Flatten(xs)| == |SS.Flatten(ys)|
  {
    if xs != [] {
      SameFlatSize(xs[..|xs| - 1], ys[..|ys| - 1]);
    }
  }

  /** Lay every sentence over its group. */
  method LayScript(groups: seq<seq<SS.Segment>>, scripts: seq<seq<nat>>) returns (laid: seq<seq<Timing>>)
    requires |groups| == |scripts| && forall k :: 0 <= k < |groups| ==> groups[k] != [] && Ordered(ToSpans(groups[k]))
    ensures AllLaid(groups, scripts, laid) && |laid| == |groups|
  {
    laid := [];
    for k := 0 to |groups|
      invariant |laid| == k && AllLaid(groups, scripts, laid)
    {
      var times := LayWords(ToSpans(groups[k]), scripts[k]);
      laid := laid + [times];
    }
  }

  /** Rounding and the last pass. */
  method Finish(times: seq<Timing>, duration: real) returns (out: seq<Cue>)
    ensures out == Tidied(ToCues(times, duration))
  {
    var rounded := ToCues(times, duration);
    var cues := new Cue[|times|](i requires 0 <= i < |times| => ToCue(times[i], duration));
    assert cues[..] == rounded;
    Tidy(cues);
    out := cues[..];
  }

  /**
   * `align`: every word of the script gets one timing, in order. With enough segments every sentence has its own
   * group, and the groups are cut at the longest pauses. Each word lies in the speech of its sentence's own
   * group of segments and takes its syllable share of it, and the last pass delays a word by at most 40 ms for each
   * word before it. A script without sentences fails, because there is no group to fold the segments into.
   */
  method Align(env: seq<real>, sentences: seq<seq<nat>>, duration: real)
    returns (out: Result<seq<Cue>, string>, ghost segs: seq<SS.Segment>, ghost groups: seq<seq<SS.Segment>>,
             ghost laid: seq<seq<Timing>>, ghost cuts: seq<int>)
    requires env != []
    ensures out.Err? <==> sentences == []
    ensures SS.GoodSegments(segs, |env|) && segs == SS.SegmentsOf(SS.VoicedOf(env, SS.Threshold(env)))
    ensures out.Ok? && |segs| < |sentences| ==> groups == [segs]
    ensures out.Ok? && |segs| >= |sentences| ==>
              && SS.Partition(segs, groups, |sentences|) && SS.CutsOk(segs, cuts, |sentences|)
              && SS.EndAtCuts(groups, cuts)
    ensures out.Ok? ==> SS.Flatten(groups) == segs && AllLaid(groups, Scripts(sentences, |segs|), laid)
    ensures out.Ok? ==> Aligned(segs, sentences, duration, SS.Flatten(laid), out.value)
  {
    laid, groups := [], [];
    var found := SS.FindSegments(env);
    segs := found;
    var grouped;
    grouped, cuts := SS.GroupSegments(found, |sentences|);
    if grouped.Err? {
      return Err("list index out of range"), segs, groups, laid, cuts;
    }
    groups := grouped.value;
    SingleGroup(found);
    var cues;
    cues, laid := AlignGroups(found, grouped.value, sentences, duration, |env|);
    out := Ok(cues);
  }

  /** The loop over sentences and the last pass, once every sentence has its group. */
  method AlignGroups(segs: seq<SS.Segment>, groups: seq<seq<SS.Segment>>, sentences: seq<seq<nat>>, duration: real,
                     ghost length: nat)
    returns (cues: seq<Cue>, ghost laid: seq<seq<Timing>>)
    requires SS.GoodSegments(segs, length) && SS.Flatten(groups) == segs
    requires |groups| == |Scripts(sentences, |segs|)| && forall k :: 0 <= k < |groups| ==> groups[k] != []
    ensures AllLaid(groups, Scripts(sentences, |segs|), laid)
    ensures Aligned(segs, sentences, duration, SS.Flatten(laid), cues)
  {
    GroupsFollow(segs, groups, length);
    var placed := LayScript(groups, Scripts(sentences, |segs|));
    laid := placed;
    cues := Finish(SS.Flatten(placed), duration);
    AlignedByParts(segs, groups, sentences, laid, duration);
  }

  lemma SingleGroup(segs: seq<SS.Segment>)
    ensures SS.Flatten([segs]) == segs
  {
    SS.FlattenSnoc([], segs);
    assert [] + [segs] == [segs];
  }

  lemma AlignedByParts(segs: seq<SS.Segment>, groups: seq<seq<SS.Segment>>, sentences: seq<seq<nat>>,
                       laid: seq<seq<Timing>>, duration: real)
    requires AllLaid(groups, Scripts(sentences, |segs|), laid) && |laid| == |groups| && GroupsInOrder(groups)
    ensures var times := SS.Flatten(laid); Aligned(segs, sentences, duration, times, Tidied(ToCues(times, duration)))
  {
    ScriptInOrder(groups, Scripts(sentences, |segs|), laid);
    OneTimingPerWord(groups, sentences, |segs|, laid);
    FinishedWell(SS.Flatten(laid), duration);
    CuesAreNear(SS.Flatten(laid), duration);
  }

  lemma OneTimingPerWord(groups: seq<seq<SS.Segment>>, sentences: seq<seq<nat>>, segments: nat, laid: seq<seq<Timing>>)
    requires AllLaid(groups, Scripts(sentences, segments), laid) && |laid| == |groups|
    ensures |SS.Flatten(laid)| == |SS.Flatten(sentences)|
  {
    var scripts := Scripts(sentences, segments);
    SameWordCount(groups, scripts, laid);
    assert scripts[..|laid|] == scripts;
    ScriptsKeepWords(sentences, segments);
  }

  lemma FinishedWell(times: seq<Timing>, duration: real)
    requires Chronological(times)
    ensures var out := Tidied(ToCues(times, duration)); Spaced(out) && SlightlyLater(ToCues(times, duration), out)
  {
    CuesInOrder(times, duration);
    TidiedIsSpaced(ToCues(times, duration));
    DelaysAreBounded(ToCues(times, duration));
  }
}
