/** Model pricing (`cost.py`, `calculate_ai_cost`): exact decimal arithmetic with half-up rounding to six places. */
module AiCost {
  import opened Common
  import BudgetLedger
  import CostGuards

  datatype Rate = Rate(
    version: string,
    input: Option<real>,
    cachedInput: Option<real>,
    output: Option<real>,
    audio: Option<real>
  )

  /** What a provider call used; every part may be unknown. */
  datatype Use = Use(input: Option<int>, output: Option<int>, cached: Option<int>, audio: Option<real>)

  const MILLION := 1_000_000.0

  function AtLeastZero(n: int): int {
    if n > 0 then n else 0
  }

  /** Cache hits as counted: never negative, never more than the input. */
  function Hits(u: Use): int
    requires u.input.Some?
  {
    var hits := AtLeastZero(if u.cached.Some? then u.cached.value else 0);
    var total := AtLeastZero(u.input.value);
    if hits > total then total else hits
  }

  /** Price of the input tokens when each hit costs the cached rate and each miss the input rate. */
  function InputCost(input: real, cachedInput: real, u: Use): real
    requires u.input.Some?
  {
    ((AtLeastZero(u.input.value) - Hits(u)) as real * input + Hits(u) as real * cachedInput) / MILLION
  }

  predicate ChargesInput(r: Rate, u: Use) { u.input.Some? && r.input.Some? }

  predicate ChargesOutput(r: Rate, u: Use) { u.output.Some? && r.output.Some? }

  predicate ChargesAudio(r: Rate, u: Use) { u.audio.Some? && r.audio.Some? }

  function InputPart(r: Rate, u: Use): real {
    if ChargesInput(r, u) then
      InputCost(r.input.value, if r.cachedInput.Some? then r.cachedInput.value else r.input.value, u)
    else 0.0
  }

  function OutputPart(r: Rate, u: Use): real {
    if ChargesOutput(r, u) then AtLeastZero(u.output.value) as real * r.output.value / MILLION else 0.0
  }

  function Duration(seconds: real): real {
    if seconds > 0.0 then seconds else 0.0
  }

  function AudioPart(r: Rate, u: Use): real {
    if ChargesAudio(r, u) then Duration(u.audio.value) * r.audio.value else 0.0
  }

  /** The unrounded price: the sum of the parts that have both a count and a rate. */
  function RawCost(r: Rate, u: Use): real {
    InputPart(r, u) + OutputPart(r, u) + AudioPart(r, u)
  }

  /** The nearest whole number of millionths, ties away from zero. */
  function Micros(x: real): int {
    if x >= 0.0 then (x * MILLION + 0.5).Floor else -(-x * MILLION + 0.5).Floor
  }

  /** `quantize(0.000001, ROUND_HALF_UP)` */
  function HalfUp(x: real): real {
    Micros(x) as real / MILLION
  }

  /** Some part has both a count and a rate. */
  ghost predicate SomethingKnown(r: Rate, u: Use) {
    (u.input.Some? && r.input.Some?) || (u.output.Some? && r.output.Some?) || (u.audio.Some? && r.audio.Some?)
  }

  /** `calculate_ai_cost`; `normalize` stands for `strip().lower()`. */
  method CalculateAiCost(registry: map<(string, string), Rate>, normalize: string -> string, provider: string,
                         model: string, u: Use)
    returns (cost: Option<real>, version: Option<string>)
    ensures var key := (normalize(provider), normalize(model));
      if key in registry && SomethingKnown(registry[key], u) then
        cost == Some(HalfUp(RawCost(registry[key], u))) && version == Some(registry[key].version)
      else
        cost == None && version == None
  {
    var key := (normalize(provider), normalize(model));
    if key !in registry {
      return None, None;
    }
    var rate := registry[key];
    var total, applied := 0.0, false;
    if u.input.Some? && rate.input.Some? {
      var totalInput := AtLeastZero(u.input.value);
      var hits := AtLeastZero(if u.cached.Some? then u.cached.value else 0);
      if hits > totalInput {
        hits := totalInput;
      }
      if rate.cachedInput.Some? && hits > 0 {
        var misses := totalInput - hits;
        total := total + (misses as real * rate.input.value + hits as real * rate.cachedInput.value) / MILLION;
      } else {
        total := total + (totalInput as real * rate.input.value) / MILLION;
        UncachedIsFullPrice(totalInput, hits, rate.input.value);
      }
      applied := true;
    }
    assert total == InputPart(rate, u);
    if u.output.Some? && rate.output.Some? {
      total := total + (AtLeastZero(u.output.value) as real * rate.output.value) / MILLION;
      applied := true;
    }
    assert total == InputPart(rate, u) + OutputPart(rate, u);
    if u.audio.Some? && rate.audio.Some? {
      var duration := if u.audio.value > 0.0 then u.audio.value else 0.0;
      total := total + duration * rate.audio.value;
      applied := true;
    }
    assert total == RawCost(rate, u);
    if !applied {
      return None, None;
    }
    return Some(HalfUp(total)), Some(rate.version);
  }

  lemma UncachedIsFullPrice(total: int, hits: int, rate: real)
    ensures (total - hits) as real * rate + hits as real * rate == total as real * rate
  {
    assert (total - hits) as real + hits as real == total as real;
  }

  // ---- what a price is ----

  /** A million times the price of known amounts: misses, hits and output by the token, audio by the second. */
  lemma PriceOfKnownAmounts(r: Rate, input: nat, cached: nat, output: nat, audio: real)
    requires r.input.Some? && r.cachedInput.Some? && r.output.Some? && r.audio.Some? && cached <= input && audio >= 0.0
    ensures 1_000_000.0 * RawCost(r, Use(Some(input), Some(output), Some(cached), Some(audio))) ==
            (input - cached) as real * r.input.value + cached as real * r.cachedInput.value +
            output as real * r.output.value + 1_000_000.0 * (audio * r.audio.value)
  {
    var u := Use(Some(input), Some(output), Some(cached), Some(audio));
    Million((input - cached) as real * r.input.value + cached as real * r.cachedInput.value);
    Million(output as real * r.output.value);
    assert Hits(u) == cached;
  }

  lemma Million(x: real)
    ensures 1_000_000.0 * (x / MILLION) == x
  {
  }

  /** Only these four things about a use enter its price. */
  ghost predicate CountsAlike(u: Use, v: Use) {
    && u.input.Some? == v.input.Some? && u.output.Some? == v.output.Some? && u.audio.Some? == v.audio.Some?
    && (u.input.Some? ==> AtLeastZero(u.input.value) == AtLeastZero(v.input.value) && Hits(u) == Hits(v))
    && (u.output.Some? ==> AtLeastZero(u.output.value) == AtLeastZero(v.output.value))
    && (u.audio.Some? ==> Duration(u.audio.value) == Duration(v.audio.value))
  }

  lemma AlikeCostsTheSame(r: Rate, u: Use, v: Use)
    requires CountsAlike(u, v)
    ensures RawCost(r, u) == RawCost(r, v)
  {
    assert InputPart(r, u) == InputPart(r, v);
    assert OutputPart(r, u) == OutputPart(r, v);
    assert AudioPart(r, u) == AudioPart(r, v);
  }

  /** The parts are priced by themselves; a part without a count or without a rate costs nothing. */
  lemma PartsAddUp(r: Rate, u: Use)
    ensures var input := RawCost(r, Use(u.input, None, u.cached, None));
      var output, audio := RawCost(r, Use(None, u.output, None, None)), RawCost(r, Use(None, None, None, u.audio));
      && RawCost(r, u) == input + output + audio
      && (u.input.None? || r.input.None? ==> input == 0.0)
      && (u.output.None? || r.output.None? ==> output == 0.0)
      && (u.audio.None? || r.audio.None? ==> audio == 0.0)
  {
    InputAlone(r, u);
    OutputAlone(r, u);
    AudioAlone(r, u);
  }

  lemma InputAlone(r: Rate, u: Use)
    ensures RawCost(r, Use(u.input, None, u.cached, None)) == InputPart(r, u)
  {
    if u.input.Some? {
      assert Hits(Use(u.input, None, u.cached, None)) == Hits(u);
    }
  }

  lemma OutputAlone(r: Rate, u: Use)
    ensures RawCost(r, Use(None, u.output, None, None)) == OutputPart(r, u)
  {
  }

  lemma AudioAlone(r: Rate, u: Use)
    ensures RawCost(r, Use(None, None, None, u.audio)) == AudioPart(r, u)
  {
  }

  /** Counts below zero are zero, cache hits beyond the input are the whole input, an unknown number of hits is none. */
  lemma CountsAreClamped(r: Rate, input: int, cached: int, output: int, audio: real)
    ensures var u := Use(Some(input), Some(output), Some(cached), Some(audio));
      && (input < 0 ==> RawCost(r, u) == RawCost(r, u.(input := Some(0))))
      && (0 <= input < cached ==> RawCost(r, u) == RawCost(r, u.(cached := Some(input))))
      && (cached < 0 ==> RawCost(r, u) == RawCost(r, u.(cached := Some(0))))
      && (output < 0 ==> RawCost(r, u) == RawCost(r, u.(output := Some(0))))
      && (audio < 0.0 ==> RawCost(r, u) == RawCost(r, u.(audio := Some(0.0))))
      && RawCost(r, u.(cached := None)) == RawCost(r, u.(cached := Some(0)))
  {
    var u := Use(Some(input), Some(output), Some(cached), Some(audio));
    if input < 0 {
      AlikeCostsTheSame(r, u, u.(input := Some(0)));
    }
    if 0 <= input < cached {
      AlikeCostsTheSame(r, u, u.(cached := Some(input)));
    }
    if cached < 0 {
      AlikeCostsTheSame(r, u, u.(cached := Some(0)));
    }
    if output < 0 {
      AlikeCostsTheSame(r, u, u.(output := Some(0)));
    }
    if audio < 0.0 {
      AlikeCostsTheSame(r, u, u.(audio := Some(0.0)));
    }
    AlikeCostsTheSame(r, u.(cached := None), u.(cached := Some(0)));
  }

  /** Without a cached rate a hit costs what a miss costs. */
  lemma NoCachedRate(r: Rate, u: Use)
    requires r.cachedInput.None?
    ensures RawCost(r, u) == RawCost(r.(cachedInput := r.input), u)
  {
    var s := r.(cachedInput := r.input);
    assert InputPart(r, u) == InputPart(s, u) && OutputPart(r, u) == OutputPart(s, u);
    assert AudioPart(r, u) == AudioPart(s, u);
  }

  // ---- rounding ----

  /** Rounding moves a price by at most half a millionth; an exact half moves away from zero. */
  lemma HalfUpIsNearest(x: real)
    ensures x - 0.0000005 <= HalfUp(x) <= x + 0.0000005
    ensures HalfUp(x) == x - 0.0000005 ==> x < 0.0
    ensures HalfUp(x) == x + 0.0000005 ==> x > 0.0
  {
    var y := if x >= 0.0 then x else -x;
    var n := (y * MILLION + 0.5).Floor;
    assert n as real <= y * MILLION + 0.5 < n as real + 1.0;
  }

  lemma HalfUpMonotone(x: real, y: real)
    requires x <= y
    ensures HalfUp(x) <= HalfUp(y)
  {
    if x >= 0.0 {
      FloorMonotone(x * MILLION + 0.5, y * MILLION + 0.5);
    } else if y < 0.0 {
      FloorMonotone(-y * MILLION + 0.5, -x * MILLION + 0.5);
    } else {
      FloorMonotone(0.0, -x * MILLION + 0.5);
      FloorMonotone(0.0, y * MILLION + 0.5);
    }
  }

  lemma FloorMonotone(a: real, b: real)
    requires a <= b
    ensures a.Floor <= b.Floor
  {
  }

  // ---- monotonicity ----

  ghost predicate SaneRate(r: Rate) {
    && (r.input.Some? ==> r.input.value >= 0.0)
    && (r.output.Some? ==> r.output.value >= 0.0)
    && (r.audio.Some? ==> r.audio.value >= 0.0)
    && (r.cachedInput.Some? ==> r.cachedInput.value >= 0.0)
    && (r.cachedInput.Some? && r.input.Some? ==> r.cachedInput.value <= r.input.value)
  }

  function CachedCount(u: Use): int {
    AtLeastZero(if u.cached.Some? then u.cached.value else 0)
  }

  /** `v` used at least what `u` used, with no more help from the cache; it may know of parts that `u` lacks. */
  ghost predicate AtMost(u: Use, v: Use) {
    && (u.input.Some? ==> v.input.Some? && u.input.value <= v.input.value)
    && (u.output.Some? ==> v.output.Some? && u.output.value <= v.output.value)
    && (u.audio.Some? ==> v.audio.Some? && u.audio.value <= v.audio.value)
    && CachedCount(v) <= CachedCount(u)
  }

  lemma Scale(a: real, b: real, rate: real)
    requires a <= b && rate >= 0.0
    ensures a * rate <= b * rate
  {
  }

  lemma InputCostMonotone(input: real, cachedInput: real, u: Use, v: Use)
    requires 0.0 <= cachedInput <= input
    requires u.input.Some? && v.input.Some? && u.input.value <= v.input.value && CachedCount(v) <= CachedCount(u)
    ensures 0.0 <= InputCost(input, cachedInput, u) <= InputCost(input, cachedInput, v)
  {
    var i, j := AtLeastZero(u.input.value), AtLeastZero(v.input.value);
    var h, k := Hits(u), Hits(v);
    Blend((i - h) as real, h as real, (j - k) as real, k as real, input, cachedInput);
  }

  /** More misses and more tokens in all cost more when a miss is the dearer token. */
  lemma Blend(m: real, h: real, n: real, k: real, input: real, cachedInput: real)
    requires 0.0 <= m <= n && 0.0 <= h && m + h <= n + k
    requires 0.0 <= cachedInput <= input
    ensures 0.0 <= m * input + h * cachedInput <= n * input + k * cachedInput
  {
    var gap := input - cachedInput;
    SplitRate(m, h, cachedInput, gap);
    SplitRate(n, k, cachedInput, gap);
    Scale(m + h, n + k, cachedInput);
    Scale(m, n, gap);
    Scale(0.0, m + h, cachedInput);
    Scale(0.0, m, gap);
  }

  lemma SplitRate(m: real, h: real, cachedInput: real, gap: real)
    ensures m * (cachedInput + gap) + h * cachedInput == (m + h) * cachedInput + m * gap
  {
  }

  /** More tokens or audio never cost less, and more cache hits never cost more, even after rounding. */
  lemma CostMonotone(r: Rate, u: Use, v: Use)
    requires SaneRate(r) && AtMost(u, v)
    ensures 0.0 <= RawCost(r, u) <= RawCost(r, v)
    ensures 0.0 <= HalfUp(RawCost(r, u)) <= HalfUp(RawCost(r, v))
  {
    InputPartMonotone(r, u, v);
    OutputPartMonotone(r, u, v);
    AudioPartMonotone(r, u, v);
    HalfUpMonotone(RawCost(r, u), RawCost(r, v));
    HalfUpMonotone(0.0, RawCost(r, u));
    assert HalfUp(0.0) == 0.0;
  }

  lemma InputPartMonotone(r: Rate, u: Use, v: Use)
    requires SaneRate(r) && AtMost(u, v)
    ensures 0.0 <= InputPart(r, u) <= InputPart(r, v)
  {
    if ChargesInput(r, u) {
      InputCostMonotone(r.input.value, if r.cachedInput.Some? then r.cachedInput.value else r.input.value, u, v);
    }
  }

  lemma OutputPartMonotone(r: Rate, u: Use, v: Use)
    requires SaneRate(r) && AtMost(u, v)
    ensures 0.0 <= OutputPart(r, u) <= OutputPart(r, v)
  {
    if ChargesOutput(r, u) {
      var m, n := AtLeastZero(u.output.value) as real, AtLeastZero(v.output.value) as real;
      Scale(0.0, m, r.output.value);
      Scale(m, n, r.output.value);
    }
  }

  lemma AudioPartMonotone(r: Rate, u: Use, v: Use)
    requires SaneRate(r) && AtMost(u, v)
    ensures 0.0 <= AudioPart(r, u) <= AudioPart(r, v)
  {
    if ChargesAudio(r, u) {
      Scale(0.0, Duration(u.audio.value), r.audio.value);
      Scale(Duration(u.audio.value), Duration(v.audio.value), r.audio.value);
    }
  }

  /** A price list with only the two input rates. */
  function InputRates(input: real, cachedInput: real): Rate {
    Rate("", Some(input), Some(cachedInput), None, None)
  }

  function InputUse(tokens: nat, cached: nat): Use {
    Use(Some(tokens), None, Some(cached), None)
  }

  /** Cache hits never raise the rounded price exactly when the cached rate is at most the input rate. */
  lemma CacheHelpsExactlyWhenCheaper(input: real, cachedInput: real)
    requires input >= 0.0 && cachedInput >= 0.0
    ensures cachedInput <= input <==>
            forall n: nat, c: nat, d: nat :: c >= d ==>
              HalfUp(RawCost(InputRates(input, cachedInput), InputUse(n, c)))
              <= HalfUp(RawCost(InputRates(input, cachedInput), InputUse(n, d)))
  {
    var r := InputRates(input, cachedInput);
    if cachedInput <= input {
      forall n: nat, c: nat, d: nat | c >= d
        ensures HalfUp(RawCost(r, InputUse(n, c))) <= HalfUp(RawCost(r, InputUse(n, d)))
      {
        CostMonotone(r, InputUse(n, c), InputUse(n, d));
      }
    } else {
      var n := DearCacheShows(input, cachedInput);
      assert n >= 0 && HalfUp(RawCost(r, InputUse(n, n))) > HalfUp(RawCost(r, InputUse(n, 0)));
    }
  }

  /** With a dearer cache some number of tokens shows it after rounding. */
  lemma DearCacheShows(input: real, cachedInput: real) returns (n: nat)
    requires 0.0 <= input < cachedInput
    ensures HalfUp(RawCost(InputRates(input, cachedInput), InputUse(n, n)))
            > HalfUp(RawCost(InputRates(input, cachedInput), InputUse(n, 0)))
  {
    var r, gap := InputRates(input, cachedInput), cachedInput - input;
    n := TokensForTwo(gap);
    var full, none := RawCost(r, InputUse(n, n)), RawCost(r, InputUse(n, 0));
    assert full == n as real * cachedInput / MILLION;
    assert none == n as real * input / MILLION;
    assert n as real * cachedInput == n as real * input + n as real * gap;
    assert full >= none + 0.000002;
    HalfUpIsNearest(full);
    HalfUpIsNearest(none);
  }

  lemma TokensForTwo(gap: real) returns (n: nat)
    requires gap > 0.0
    ensures n as real * gap >= 2.0
  {
    var q := 2.0 / gap;
    assert q * gap == 2.0;
    assert q >= 0.0;
    n := q.Floor + 1;
    Scale(q, n as real, gap);
  }

  /**
   * An estimate from at least the actual counts and no cache discount covers the actual price, so settling an open
   * hold of the estimated amount with the actual price is a proper commit of the budget protocol.
   */
  lemma EstimateCoversActual(r: Rate, actual: Use, estimate: Use, hold: BudgetLedger.Row, now: int)
    requires SaneRate(r) && AtMost(actual.(cached := None), estimate) && estimate.cached == None
    requires hold.status == BudgetLedger.Reserved && hold.expiresAt > now && hold.actual == None
    requires hold.reserved == HalfUp(RawCost(r, estimate))
    ensures CostGuards.SettlesHold(hold, Some(HalfUp(RawCost(r, actual))), now)
  {
    CostMonotone(r, actual, estimate);
  }
}
