/**
 * Variable-size integers of EBML (`audio_duration.py`, `read_vint` inside `_probe_webm`; section 4 of RFC 8794).
 * Bytes are numbers below 256, so the source's masks and shifts are written as divisions, remainders and products.
 */
module VariableSizeIntegers {
  import opened Common

  type Byte = b: int | 0 <= b < 256

  function Pow2(n: nat): (p: nat)
    ensures p >= 1
  {
    if n == 0 then 1 else 2 * Pow2(n - 1)
  }

  lemma {:induction false} Pow2Add(a: nat, b: nat)
    ensures Pow2(a + b) == Pow2(a) * Pow2(b)
  {
    if b > 0 {
      Pow2Add(a, b - 1);
      assert Pow2(a + b) == 2 * Pow2(a + (b - 1));
    }
  }

  /** The number that bytes spell, most significant byte first. */
  function Big(bytes: seq<Byte>): nat {
    if bytes == [] then 0 else Big(bytes[..|bytes| - 1]) * 256 + bytes[|bytes| - 1]
  }

  /** The lowest `width` bytes of a number, most significant first. */
  function BigBytes(n: nat, width: nat): (bytes: seq<Byte>)
    ensures |bytes| == width
  {
    if width == 0 then [] else BigBytes(n / 256, width - 1) + [n % 256]
  }

  /** The number of bytes a first byte announces: one more than its leading zeros, and 9 for a byte without a marker. */
  function Width(first: Byte): (w: nat)
    ensures 1 <= w <= 9
    ensures w <= 8 ==> Pow2(8 - w) <= first < Pow2(9 - w)
    ensures w == 9 <==> first == 0
  {
    Pow2Table();
    if first >= 128 then 1
    else if first >= 64 then 2
    else if first >= 32 then 3
    else if first >= 16 then 4
    else if first >= 8 then 5
    else if first >= 4 then 6
    else if first >= 2 then 7
    else if first == 1 then 8
    else 9
  }

  lemma Pow2Table()
    ensures Pow2(0) == 1 && Pow2(1) == 2 && Pow2(2) == 4 && Pow2(3) == 8 && Pow2(4) == 16
    ensures Pow2(5) == 32 && Pow2(6) == 64 && Pow2(7) == 128 && Pow2(8) == 256
  {
  }

  /** What `read_vint` returns: the value and its width in bytes. */
  datatype Vint = Vint(value: nat, width: nat)

  function ReadSpec(buffer: seq<Byte>, offset: nat): Option<Vint> {
    if offset >= |buffer| then None
    else
      var w := Width(buffer[offset]);
      if w > 8 || offset + w > |buffer| then None
      else Some(Vint(Big([buffer[offset] % Pow2(8 - w)] + buffer[offset + 1..offset + w]), w))
  }

  /** The two loops of `read_vint`: find the marker, then append the remaining bytes. */
  method ReadVint(buffer: seq<Byte>, offset: nat) returns (r: Option<Vint>)
    ensures r == ReadSpec(buffer, offset)
  {
    if offset >= |buffer| {
      return None;
    }
    var first: int := buffer[offset];
    var length := 1;
    var mask := 128;
    Pow2Table();
    while length <= 8 && first / mask % 2 == 0
      invariant 1 <= length <= 9
      invariant length <= 8 ==> mask == Pow2(8 - length)
      invariant first < Pow2(9 - length)
      decreases 9 - length
    {
      MarkerBit(first, mask);
      length := length + 1;
      mask := mask / 2;
    }
    if length <= 8 {
      MarkerBit(first, mask);
      WidthIs(buffer[offset], length);
    }
    if length > 8 || offset + length > |buffer| {
      return None;
    }
    var head: Byte := first % mask;
    var val: nat := head;
    for i := 1 to length
      invariant val == Big([head] + buffer[offset + 1..offset + i])
    {
      val := val * 256 + buffer[offset + i];
      var longer: seq<Byte> := [head] + buffer[offset + 1..offset + i + 1];
      assert longer[..|longer| - 1] == [head] + buffer[offset + 1..offset + i];
    }
    return Some(Vint(val, length));
  }

  /** Below twice the mask, the mask bit is set exactly for numbers not below the mask. */
  lemma MarkerBit(first: nat, mask: nat)
    requires mask > 0 && first < 2 * mask
    ensures first / mask % 2 == 0 <==> first < mask
  {
    DivIs(first, mask, if first < mask then 0 else 1);
  }

  lemma MulLe(a: nat, b: nat, m: nat)
    requires a <= b
    ensures a * m <= b * m
  {
  }

  lemma MulLess(a: nat, b: nat, m: nat)
    requires a < b
    ensures a * m + m <= b * m
  {
    MulLe(a + 1, b, m);
    assert (a + 1) * m == a * m + m;
  }

  lemma DivIs(n: nat, m: nat, q: nat)
    requires m > 0 && q * m <= n < q * m + m
    ensures n / m == q && n % m == n - q * m
  {
    var d := n / m;
    assert n == d * m + n % m;
    if d < q {
      MulLess(d, q, m);
    } else if d > q {
      MulLess(q, d, m);
    }
  }

  lemma WidthIs(first: Byte, w: nat)
    requires 1 <= w <= 8 && Pow2(8 - w) <= first < Pow2(9 - w)
    ensures Width(first) == w
  {
    Pow2Table();
  }

  // ---- the encoding ----

  /** `value` in `width` bytes: a marker bit after `width - 1` zero bits, then seven data bits for every byte. */
  function Encode(value: nat, width: nat): seq<Byte>
    requires 1 <= width <= 8 && value < Pow2(7 * width)
  {
    BigBytes(Pow2(7 * width) + value, width)
  }

  lemma {:induction false} BigOfBytes(n: nat, width: nat)
    requires n < Pow2(8 * width)
    ensures Big(BigBytes(n, width)) == n
  {
    if width > 0 {
      Pow2Add(8 * (width - 1), 8);
      Pow2Table();
      BigOfBytes(n / 256, width - 1);
      var bytes := BigBytes(n, width);
      assert bytes[..|bytes| - 1] == BigBytes(n / 256, width - 1);
    }
  }

  lemma {:induction false} BytesOfBig(bytes: seq<Byte>)
    ensures BigBytes(Big(bytes), |bytes|) == bytes && Big(bytes) < Pow2(8 * |bytes|)
  {
    if bytes != [] {
      var front := bytes[..|bytes| - 1];
      BytesOfBig(front);
      Pow2Add(8 * |front|, 8);
      Pow2Table();
      assert Big(bytes) / 256 == Big(front) && Big(bytes) % 256 == bytes[|bytes| - 1];
    }
  }

  /** The first byte carries weight `256^(n - 1)`. */
  lemma {:induction false} BigSplit(first: Byte, rest: seq<Byte>)
    ensures Big([first] + rest) == first * Pow2(8 * |rest|) + Big(rest)
  {
    if rest == [] {
      assert [first] + rest == [first];
      assert Big([first]) == Big([]) * 256 + first;
    } else {
      var front, last := rest[..|rest| - 1], rest[|rest| - 1];
      BigSplit(first, front);
      assert ([first] + rest)[..|rest|] == [first] + front;
      Pow2Add(8 * |front|, 8);
      Pow2Table();
      assert first * (Pow2(8 * |front|) * 256) == first * Pow2(8 * |front|) * 256;
    }
  }

  /** The bytes from `offset` on start with a number encoded in `width` bytes. */
  ghost predicate EncodedAt(buffer: seq<Byte>, offset: nat, v: Vint) {
    && 1 <= v.width <= 8 && v.value < Pow2(7 * v.width)
    && offset + v.width <= |buffer|
    && buffer[offset..offset + v.width] == Encode(v.value, v.width)
  }

  /** The weights of a `width`-byte number: the marker's place in the first byte, and what the first byte weighs. */
  lemma MarkerWeight(w: nat)
    requires 1 <= w <= 8
    ensures Pow2(8 - w) * Pow2(8 * (w - 1)) == Pow2(7 * w)
  {
    Pow2Add(8 - w, 8 * (w - 1));
    assert 8 - w + 8 * (w - 1) == 7 * w;
  }

  lemma LowPart(low: nat, mask: nat, unit: nat, rest: nat)
    requires low < mask && rest < unit
    ensures low * unit + rest < mask * unit
  {
    MulLess(low, mask, unit);
  }

  lemma MarkedFirst(first: Byte, w: nat)
    requires 1 <= w <= 8 && Width(first) == w
    ensures first % Pow2(8 - w) == first - Pow2(8 - w) < Pow2(8 - w)
  {
    Pow2Table();
    DivIs(first, Pow2(8 - w), 1);
  }

  /** Clearing the marker leaves the data: a marked first byte adds exactly the marker's weight. */
  lemma MarkedNumber(first: Byte, rest: seq<Byte>)
    requires Width(first) == |rest| + 1 <= 8
    ensures var w := |rest| + 1; var data := Big([first % Pow2(8 - w)] + rest);
      && Big([first] + rest) == Pow2(7 * w) + data
      && data < Pow2(7 * w)
  {
    var w := |rest| + 1;
    MarkedFirst(first, w);
    BigSplit(first, rest);
    BigSplit(first % Pow2(8 - w), rest);
    MarkerWeight(w);
    BytesOfBig(rest);
    Unmark(first, Pow2(8 - w), Pow2(8 * |rest|), Big(rest));
  }

  lemma Unmark(first: nat, mask: nat, unit: nat, rest: nat)
    requires mask <= first < 2 * mask && rest < unit
    ensures first * unit + rest == mask * unit + ((first - mask) * unit + rest)
    ensures (first - mask) * unit + rest < mask * unit
  {
    LowPart(first - mask, mask, unit, rest);
  }

  /** A leading digit is bounded by what the whole number is bounded by. */
  lemma LeadingBounds(first: nat, mask: nat, unit: nat, rest: nat)
    requires rest < unit && mask * unit <= first * unit + rest < 2 * (mask * unit)
    ensures mask <= first < 2 * mask
  {
    assert 2 * (mask * unit) == (2 * mask) * unit;
    if first < mask {
      MulLess(first, mask, unit);
    } else if first >= 2 * mask {
      MulLe(2 * mask, first, unit);
    }
  }

  /** A number of the right size has a first byte that announces its width. */
  lemma MarkedWidth(bytes: seq<Byte>, value: nat)
    requires 1 <= |bytes| <= 8 && value < Pow2(7 * |bytes|) && Big(bytes) == Pow2(7 * |bytes|) + value
    ensures Width(bytes[0]) == |bytes|
  {
    var w, first, rest := |bytes|, bytes[0], bytes[1..];
    assert bytes == [first] + rest;
    BigSplit(first, rest);
    BytesOfBig(rest);
    MarkerWeight(w);
    LeadingBounds(first, Pow2(8 - w), Pow2(8 * (w - 1)), Big(rest));
    assert Pow2(9 - w) == 2 * Pow2(8 - w);
    WidthIs(first, w);
  }

  lemma ReadIsEncoded(buffer: seq<Byte>, offset: nat, v: Vint)
    requires ReadSpec(buffer, offset) == Some(v)
    ensures EncodedAt(buffer, offset, v)
  {
    HeadAndRest(buffer, offset, v.width);
    MarkedNumber(buffer[offset], buffer[offset + 1..offset + v.width]);
    BytesOfBig(buffer[offset..offset + v.width]);
  }

  lemma HeadAndRest(buffer: seq<Byte>, offset: nat, width: nat)
    requires 1 <= width && offset + width <= |buffer|
    ensures buffer[offset..offset + width] == [buffer[offset]] + buffer[offset + 1..offset + width]
  {
  }

  lemma EncodedIsRead(buffer: seq<Byte>, offset: nat, v: Vint)
    requires EncodedAt(buffer, offset, v)
    ensures ReadSpec(buffer, offset) == Some(v)
  {
    HeadAndRest(buffer, offset, v.width);
    var first, rest := buffer[offset], buffer[offset + 1..offset + v.width];
    assert Encode(v.value, v.width) == [first] + rest;
    DataOfEncoding(first, rest, v);
  }

  /** The data of an encoding is the number it encodes. */
  lemma DataOfEncoding(first: Byte, rest: seq<Byte>, v: Vint)
    requires 1 <= v.width <= 8 && v.value < Pow2(7 * v.width) && [first] + rest == Encode(v.value, v.width)
    ensures |rest| == v.width - 1 && Width(first) == v.width
    ensures Big([first % Pow2(8 - v.width)] + rest) == v.value
  {
    EncodedSize(v.width);
    EncodingStarts(v.value, v.width);
    assert |[first] + rest| == v.width && ([first] + rest)[0] == first;
    MarkedNumber(first, rest);
  }

  /** An encoding announces its own width and spells the marked number. */
  lemma EncodingStarts(value: nat, width: nat)
    requires 1 <= width <= 8 && value < Pow2(7 * width)
    ensures Width(Encode(value, width)[0]) == width && Big(Encode(value, width)) == Pow2(7 * width) + value
  {
    EncodedSize(width);
    BigOfBytes(Pow2(7 * width) + value, width);
    MarkedWidth(Encode(value, width), value);
  }

  /**
   * `read_vint` inverts the encoding at any offset of any buffer: it returns a value and a width if and only if the
   * bytes there are the encoding of that value in that width.
   */
  lemma ReadsExactlyEncodings(buffer: seq<Byte>, offset: nat, v: Vint)
    ensures ReadSpec(buffer, offset) == Some(v) <==> EncodedAt(buffer, offset, v)
  {
    if ReadSpec(buffer, offset) == Some(v) {
      ReadIsEncoded(buffer, offset, v);
    }
    if EncodedAt(buffer, offset, v) {
      EncodedIsRead(buffer, offset, v);
    }
  }

  lemma EncodedSize(w: nat)
    requires 1 <= w <= 8
    ensures 2 * Pow2(7 * w) <= Pow2(8 * w)
  {
    Pow2Add(7 * w, w);
    Pow2Add(1, w - 1);
    assert Pow2(w) >= 2;
    assert 7 * w + w == 8 * w;
    MulLe(2, Pow2(w), Pow2(7 * w));
  }

  /** Nothing is returned exactly past the end, without a marker, or when the announced bytes are cut off. */
  lemma NothingExactlyWhen(buffer: seq<Byte>, offset: nat)
    ensures ReadSpec(buffer, offset).None?
       <==> offset >= |buffer| || buffer[offset] == 0 || offset + Width(buffer[offset]) > |buffer|
  {
  }

  /** Writing a number anywhere in a buffer and reading it back gives the number, for every width that holds it. */
  lemma RoundTrip(before: seq<Byte>, value: nat, width: nat, after: seq<Byte>)
    requires 1 <= width <= 8 && value < Pow2(7 * width)
    ensures ReadSpec(before + Encode(value, width) + after, |before|) == Some(Vint(value, width))
  {
    var buffer := before + Encode(value, width) + after;
    assert buffer[|before|..|before| + width] == Encode(value, width);
    ReadsExactlyEncodings(buffer, |before|, Vint(value, width));
  }
}
