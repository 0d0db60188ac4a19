/**
 * Laying the words of a sentence over its speech time (`align-mascot-audio.py`, `align`, the span walk). Times are
 * exact reals, so the source's 1e-9 tolerance is zero here.
 */
module SpeechLayout {

  /** A stretch of speech in seconds. */
  datatype Span = Span(start: real, end: real)

  datatype Timing = Timing(start: real, end: real)

  ghost predicate Ordered(spans: seq<Span>) {
    && (forall i :: 0 <= i < |spans| ==> spans[i].start < spans[i].end)
    && (forall i, j :: 0 <= i < j < |spans| ==> spans[i].end <= spans[j].start)
  }

  function SpeechTime(spans: seq<Span>): real {
    if spans == [] then 0.0
    else SpeechTime(spans[..|spans| - 1]) + (spans[|spans| - 1].end - spans[|spans| - 1].start)
  }

  /** The part of one span that lies before the time `t`. */
  function Clamped(s: Span, t: real): real {
    if t <= s.start then 0.0 else if t >= s.end then s.end - s.start else t - s.start
  }

  /** How much speech there is before the time `t`; pauses do not count. */
  function SpeechBefore(spans: seq<Span>, t: real): real {
    if spans == [] then 0.0
    else SpeechBefore(spans[..|spans| - 1], t) + Clamped(spans[|spans| - 1], t)
  }

  ghost predicate InSpeech(spans: seq<Span>, t: real) {
    exists i :: 0 <= i < |spans| && spans[i].start <= t <= spans[i].end
  }

  /** Where the walk stands: `cursor` seconds of speech are used, `used` of them before span `i`. */
  ghost predicate At(spans: seq<Span>, i: nat, used: real, cursor: real) {
    && i < |spans|
    && used == SpeechTime(spans[..i])
    && 0.0 <= cursor - used <= spans[i].end - spans[i].start
  }

  lemma {:induction false} AllBefore(spans: seq<Span>, t: real)
    requires forall i :: 0 <= i < |spans| ==> spans[i].start < spans[i].end <= t
    ensures SpeechBefore(spans, t) == SpeechTime(spans)
  {
    if spans != [] {
      AllBefore(spans[..|spans| - 1], t);
    }
  }

  lemma {:induction false} NoneAfter(spans: seq<Span>, m: nat, t: real)
    requires m <= |spans| && forall j :: m <= j < |spans| ==> t <= spans[j].start
    ensures SpeechBefore(spans, t) == SpeechBefore(spans[..m], t)
    decreases |spans|
  {
    if m == |spans| {
      assert spans[..m] == spans;
    } else {
      var front := spans[..|spans| - 1];
      assert front[..m] == spans[..m];
      NoneAfter(front, m, t);
    }
  }

  /** The speech before the position of the walk is exactly what the walk has used. */
  lemma PositionUses(spans: seq<Span>, i: nat, used: real, cursor: real)
    requires Ordered(spans) && At(spans, i, used, cursor)
    ensures var t := spans[i].start + (cursor - used); InSpeech(spans, t) && SpeechBefore(spans, t) == cursor
  {
    var t := spans[i].start + (cursor - used);
    assert spans[i].start <= t <= spans[i].end;
    var earlier := spans[..i];
    forall j | 0 <= j < |earlier| ensures earlier[j].start < earlier[j].end <= t {
      assert spans[j].end <= spans[i].start;
    }
    AllBefore(earlier, t);
    assert spans[..i + 1][..i] == earlier;
    forall j | i + 1 <= j < |spans| ensures t <= spans[j].start {
      assert spans[i].end <= spans[j].start;
    }
    NoneAfter(spans, i + 1, t);
  }

  lemma {:induction false} SpeechTimeSplit(spans: seq<Span>, i: nat)
    requires i <= |spans| && Ordered(spans)
    ensures SpeechTime(spans[..i]) <= SpeechTime(spans)
    ensures i < |spans| ==> SpeechTime(spans[..i + 1]) == SpeechTime(spans[..i]) + (spans[i].end - spans[i].start)
    ensures i < |spans| ==> SpeechTime(spans[..i + 1]) <= SpeechTime(spans)
    decreases |spans| - i
  {
    if i == |spans| {
      assert spans[..i] == spans;
    } else {
      assert spans[..i + 1][..i] == spans[..i];
      SpeechTimeSplit(spans, i + 1);
    }
  }

  /** Use up `need` more seconds of speech, skipping pauses. */
  method Walk(spans: seq<Span>, i: nat, used: real, cursor: real, need: real)
    returns (i': nat, used': real, cursor': real)
    requires Ordered(spans) && At(spans, i, used, cursor)
    requires 0.0 <= need && cursor + need <= SpeechTime(spans)
    ensures At(spans, i', used', cursor') && cursor' == cursor + need && i <= i'
  {
    i', used', cursor' := i, used, cursor;
    var remaining := need;
    while remaining > 0.0 && i' < |spans|
      invariant 0.0 <= remaining && i <= i' && At(spans, i', used', cursor') && cursor' + remaining == cursor + need
      decreases |spans| - i', if remaining > 0.0 then 1 else 0
    {
      var left := spans[i'].end - (spans[i'].start + (cursor' - used'));
      if remaining <= left {
        cursor' := cursor' + remaining;
        remaining := 0.0;
      } else {
        SpeechTimeSplit(spans, i');
        LastSpanSuffices(spans, i', cursor' + left, remaining - left);
        cursor' := cursor' + left;
        remaining := remaining - left;
        used' := cursor';
        i' := i' + 1;
      }
    }
  }

  /** A walk that still needs speech after span `i` has another span. */
  lemma LastSpanSuffices(spans: seq<Span>, i: nat, cursor: real, remaining: real)
    requires i < |spans| && cursor == SpeechTime(spans[..i + 1]) && remaining > 0.0
    requires cursor + remaining <= SpeechTime(spans)
    ensures i + 1 < |spans|
  {
    assert spans[..|spans|] == spans;
  }

  function Sum(weights: seq<nat>): nat {
    if weights == [] then 0 else Sum(weights[..|weights| - 1]) + weights[|weights| - 1]
  }

  function TotalNeed(needs: seq<real>): real {
    if needs == [] then 0.0 else TotalNeed(needs[..|needs| - 1]) + needs[|needs| - 1]
  }

  lemma {:induction false} NeedPrefix(needs: seq<real>, k: nat)
    requires k < |needs| && forall j :: 0 <= j < |needs| ==> needs[j] >= 0.0
    ensures TotalNeed(needs[..k + 1]) == TotalNeed(needs[..k]) + needs[k] <= TotalNeed(needs)
    decreases |needs| - k
  {
    assert needs[..k + 1][..k] == needs[..k];
    if k + 1 == |needs| {
      assert needs[..k + 1] == needs;
    } else {
      NeedPrefix(needs, k + 1);
    }
  }

  /** Word `k` starts and ends inside speech; the speech before it is what earlier words need, and it takes its own. */
  ghost predicate Placed(spans: seq<Span>, needs: seq<real>, k: nat, t: Timing)
    requires k < |needs|
  {
    && InSpeech(spans, t.start) && InSpeech(spans, t.end) && t.start <= t.end
    && SpeechBefore(spans, t.start) == TotalNeed(needs[..k])
    && SpeechBefore(spans, t.end) - SpeechBefore(spans, t.start) == needs[k]
  }

  /** The words before `k` are placed one after the other, the last of them up to `now`. */
  ghost predicate PlacedUpTo(spans: seq<Span>, needs: seq<real>, k: nat, times: seq<Timing>, now: real)
    requires k <= |needs| && spans != []
  {
    && |times| == k
    && (forall j :: 0 <= j < k ==> Placed(spans, needs, j, times[j]))
    && (forall j :: 0 <= j < k - 1 ==> times[j].end == times[j + 1].start)
    && now == (if k == 0 then spans[0].start else times[k - 1].end)
    && (k > 0 ==> times[0].start == spans[0].start)
  }

  /** Where the last word ended; the start of the speech when there are no words. */
  function LastEnd(spans: seq<Span>, times: seq<Timing>): real
    requires spans != []
  {
    if times == [] then spans[0].start else times[|times| - 1].end
  }

  lemma PlaceNext(spans: seq<Span>, needs: seq<real>, k: nat, times: seq<Timing>, start: real, end: real)
    requires k < |needs| && spans != [] && PlacedUpTo(spans, needs, k, times, start)
    requires Placed(spans, needs, k, Timing(start, end))
    ensures PlacedUpTo(spans, needs, k + 1, times + [Timing(start, end)], end)
  {
  }

  /** Place one word that needs `need` seconds of speech. */
  method LayOne(spans: seq<Span>, i: nat, used: real, cursor: real, need: real)
    returns (t: Timing, i': nat, used': real, cursor': real)
    requires Ordered(spans) && At(spans, i, used, cursor)
    requires 0.0 <= need && cursor + need <= SpeechTime(spans)
    ensures At(spans, i', used', cursor') && cursor' == cursor + need
    ensures t == Timing(spans[i].start + (cursor - used), spans[i'].start + (cursor' - used'))
    ensures InSpeech(spans, t.start) && InSpeech(spans, t.end) && t.start <= t.end
    ensures SpeechBefore(spans, t.start) == cursor && SpeechBefore(spans, t.end) == cursor'
  {
    PositionUses(spans, i, used, cursor);
    i', used', cursor' := Walk(spans, i, used, cursor, need);
    PositionUses(spans, i', used', cursor');
    WalkMovesForward(spans, i, used, cursor, i', used', cursor');
    t := Timing(spans[i].start + (cursor - used), spans[i'].start + (cursor' - used'));
  }

  /** The span walk over one sentence whose words need the given speech times. */
  method LayNeeds(spans: seq<Span>, needs: seq<real>) returns (times: seq<Timing>)
    requires spans != [] && Ordered(spans)
    requires (forall j :: 0 <= j < |needs| ==> needs[j] >= 0.0) && TotalNeed(needs) <= SpeechTime(spans)
    ensures PlacedUpTo(spans, needs, |needs|, times, LastEnd(spans, times))
  {
    times := [];
    var i: nat, used, cursor := 0, 0.0, 0.0;
    ghost var now := spans[0].start;
    for k := 0 to |needs|
      invariant At(spans, i, used, cursor) && cursor == TotalNeed(needs[..k]) && now == spans[i].start + (cursor - used)
      invariant PlacedUpTo(spans, needs, k, times, now)
    {
      NeedPrefix(needs, k);
      var t;
      t, i, used, cursor := LayOne(spans, i, used, cursor, needs[k]);
      PlaceNext(spans, needs, k, times, t.start, t.end);
      times := times + [t];
      now := t.end;
    }
  }

  lemma WalkMovesForward(spans: seq<Span>, i: nat, used: real, cursor: real, i': nat, used': real, cursor': real)
    requires Ordered(spans) && At(spans, i, used, cursor) && At(spans, i', used', cursor')
    requires i <= i' && cursor <= cursor'
    ensures spans[i].start + (cursor - used) <= spans[i'].start + (cursor' - used')
  {
    if i < i' {
      assert spans[i].end <= spans[i'].start;
    }
  }

  // ---- shares ----

  /** The seconds of speech that belong to `weight` out of `total`. */
  function Share(speech: real, weight: nat, total: nat): real
    requires total > 0
  {
    speech * weight as real / total as real
  }

  function TotalWeight(weights: seq<nat>): nat {
    if Sum(weights) == 0 then 1 else Sum(weights)
  }

  function Shares(speech: real, weights: seq<nat>, total: nat): (r: seq<real>)
    requires total > 0
    ensures |r| == |weights|
  {
    seq(|weights|, k requires 0 <= k < |weights| => Share(speech, weights[k], total))
  }

  lemma ShareAdds(speech: real, a: nat, b: nat, total: nat)
    requires total > 0
    ensures Share(speech, a, total) + Share(speech, b, total) == Share(speech, a + b, total)
  {
    assert speech * a as real + speech * b as real == speech * (a + b) as real;
  }

  lemma ShareNonNegative(speech: real, a: nat, total: nat)
    requires total > 0 && speech >= 0.0
    ensures 0.0 <= Share(speech, a, total)
  {
    assert speech * a as real >= 0.0;
  }

  lemma FullShare(speech: real, total: nat)
    requires total > 0
    ensures Share(speech, total, total) == speech && Share(speech, 0, total) == 0.0
  {
    var r := total as real;
    var q := speech * r / r;
    assert q * r == speech * r;
    assert (q - speech) * r == 0.0;
  }

  /** The shares of all words add up to the share of all weights. */
  lemma {:induction false} SharesAdd(speech: real, weights: seq<nat>, total: nat)
    requires total > 0
    ensures TotalNeed(Shares(speech, weights, total)) == Share(speech, Sum(weights), total)
  {
    if weights == [] {
      FullShare(speech, total);
    } else {
      var front := weights[..|weights| - 1];
      assert Shares(speech, weights, total)[..|front|] == Shares(speech, front, total);
      SharesAdd(speech, front, total);
      ShareAdds(speech, Sum(front), weights[|front|], total);
    }
  }

  lemma {:induction false} SpeechTimePositive(spans: seq<Span>)
    requires Ordered(spans)
    ensures SpeechTime(spans) >= 0.0
  {
    if spans != [] {
      SpeechTimePositive(spans[..|spans| - 1]);
    }
  }

  /**
   * One sentence of `align`: weights are syllable counts. Every word starts and ends inside speech, takes exactly
   * its syllable share of the speech time, and starts where the word before it ended; together the words use all of
   * the speech unless they have no syllables at all.
   */
  method LayWords(spans: seq<Span>, weights: seq<nat>) returns (times: seq<Timing>)
    requires spans != [] && Ordered(spans)
    ensures |times| == |weights|
    ensures PlacedUpTo(spans, Shares(SpeechTime(spans), weights, TotalWeight(weights)), |weights|, times,
                       LastEnd(spans, times))
    ensures Sum(weights) > 0 ==>
              TotalNeed(Shares(SpeechTime(spans), weights, TotalWeight(weights))) == SpeechTime(spans)
  {
    var speech, total := SpeechTime(spans), TotalWeight(weights);
    SpeechTimePositive(spans);
    SharesAdd(speech, weights, total);
    FullShare(speech, total);
    forall j | 0 <= j < |weights| ensures Share(speech, weights[j], total) >= 0.0 {
      ShareNonNegative(speech, weights[j], total);
    }
    times := LayNeeds(spans, Shares(speech, weights, total));
  }
}
