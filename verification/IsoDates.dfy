/** Calendar days and the ISO text the date normaliser prints for them (`claim_semantics.py`, `_iso`). */
module IsoDates {
  import opened Common
  import opened Ordering

  datatype Day = Day(year: nat, month: nat, day: nat)

  predicate Leap(year: nat) {
    year % 4 == 0 && (year % 100 != 0 || year % 400 == 0)
  }

  function DaysIn(year: nat, month: nat): nat {
    if month == 2 then (if Leap(year) then 29 else 28)
    else if month in {4, 6, 9, 11} then 30
    else 31
  }

  /** What `datetime.date` accepts. */
  predicate RealDay(d: Day) {
    1 <= d.year <= 9999 && 1 <= d.month <= 12 && 1 <= d.day <= DaysIn(d.year, d.month)
  }

  predicate Earlier(a: Day, b: Day) {
    a.year < b.year || (a.year == b.year && (a.month < b.month || (a.month == b.month && a.day < b.day)))
  }

  // ---- decimal digits ----

  function Digit(n: nat): char
    requires n < 10
  {
    "0123456789"[n]
  }

  function Power(width: nat): nat {
    if width == 0 then 1 else 10 * Power(width - 1)
  }

  /** `f"{n:0{width}d}"` for a number that fits. */
  function Padded(n: nat, width: nat): (s: string)
    requires n < Power(width)
    ensures |s| == width
  {
    if width == 0 then "" else Padded(n / 10, width - 1) + [Digit(n % 10)]
  }

  /** `int(text)` for ASCII digits. */
  function ReadDigit(c: char): Option<nat> {
    if '0' <= c <= '9' then Some(c as nat - '0' as nat) else None
  }

  function ReadNumber(s: string): Option<nat> {
    if s == "" then Some(0)
    else
      var front, last := ReadNumber(s[..|s| - 1]), ReadDigit(s[|s| - 1]);
      if front.Some? && last.Some? then Some(front.value * 10 + last.value) else None
  }

  lemma ReadsDigit(n: nat)
    requires n < 10
    ensures ReadDigit(Digit(n)) == Some(n)
  {
    assert Digit(n) == ('0' as nat + n) as char;
  }

  lemma {:induction false} ReadsPadded(n: nat, width: nat)
    requires n < Power(width)
    ensures ReadNumber(Padded(n, width)) == Some(n)
  {
    if width > 0 {
      ReadsPadded(n / 10, width - 1);
      ReadsDigit(n % 10);
      ReadSnoc(Padded(n / 10, width - 1), Digit(n % 10), n / 10, n % 10);
    }
  }

  lemma ReadSnoc(front: string, last: char, tens: nat, ones: nat)
    requires ReadNumber(front) == Some(tens) && ReadDigit(last) == Some(ones)
    ensures ReadNumber(front + [last]) == Some(tens * 10 + ones)
  {
    assert (front + [last])[..|front + [last]| - 1] == front;
  }

  /** Padded numbers compare as text the way they compare as numbers; what follows them decides ties. */
  lemma {:induction false} PaddedOrder(a: nat, b: nat, width: nat, s: string, t: string)
    requires a < Power(width) && b < Power(width)
    ensures TextLe(Padded(a, width) + s, Padded(b, width) + t) <==> a < b || (a == b && TextLe(s, t))
  {
    if width == 0 {
      assert "" + s == s && "" + t == t;
    } else {
      var s', t' := [Digit(a % 10)] + s, [Digit(b % 10)] + t;
      PaddedOrder(a / 10, b / 10, width - 1, s', t');
      LastDigitMoves(a, width, s);
      LastDigitMoves(b, width, t);
      assert s'[1..] == s && t'[1..] == t;
      DigitOrder(a % 10, b % 10);
    }
  }

  lemma LastDigitMoves(n: nat, width: nat, s: string)
    requires width > 0 && n < Power(width)
    ensures n / 10 < Power(width - 1)
    ensures Padded(n, width) + s == Padded(n / 10, width - 1) + ([Digit(n % 10)] + s)
  {
  }

  lemma DigitOrder(m: nat, n: nat)
    requires m < 10 && n < 10
    ensures (Digit(m) < Digit(n) <==> m < n) && (Digit(m) == Digit(n) <==> m == n)
  {
    ReadsDigit(m);
    ReadsDigit(n);
  }

  // ---- ISO text ----

  predicate Printable(d: Day) {
    d.year <= 9999 && d.month <= 99 && d.day <= 99
  }

  lemma Powers()
    ensures Power(2) == 100 && Power(4) == 10000
  {
    assert Power(1) == 10 && Power(3) == 10 * Power(2);
  }

  function IsoYear(year: nat): string
    requires year <= 9999
  {
    Powers();
    Padded(year, 4)
  }

  function IsoMonth(year: nat, month: nat): string
    requires year <= 9999 && month <= 99
  {
    Powers();
    IsoYear(year) + ("-" + Padded(month, 2))
  }

  function IsoDay(d: Day): string
    requires Printable(d)
  {
    Powers();
    IsoYear(d.year) + ("-" + (Padded(d.month, 2) + ("-" + Padded(d.day, 2))))
  }

  /** Reads `YYYY-MM-DD` back; anything else, and any day that does not exist, is refused. */
  function ParseIso(s: string): Option<Day> {
    if |s| != 10 || s[4] != '-' || s[7] != '-' then None
    else
      var y, m, d := ReadNumber(s[..4]), ReadNumber(s[5..7]), ReadNumber(s[8..]);
      if y.Some? && m.Some? && d.Some? && RealDay(Day(y.value, m.value, d.value))
      then Some(Day(y.value, m.value, d.value))
      else None
  }

  /** The printed text of a real day reads back as that day, and text of anything else does not read back. */
  lemma IsoRoundTrip(d: Day)
    requires Printable(d)
    ensures ParseIso(IsoDay(d)) == if RealDay(d) then Some(d) else None
  {
    Powers();
    var s := IsoDay(d);
    assert s[..4] == Padded(d.year, 4) && s[5..7] == Padded(d.month, 2) && s[8..] == Padded(d.day, 2);
    ReadsPadded(d.year, 4);
    ReadsPadded(d.month, 2);
    ReadsPadded(d.day, 2);
  }

  /** Comparing printed days as text compares the days. */
  lemma IsoOrder(a: Day, b: Day)
    requires Printable(a) && Printable(b)
    ensures TextLe(IsoDay(a), IsoDay(b)) <==> a == b || Earlier(a, b)
  {
    Powers();
    var endA, endB := Padded(a.day, 2), Padded(b.day, 2);
    PaddedOrder(a.day, b.day, 2, "", "");
    assert endA + "" == endA && endB + "" == endB;
    TextLeCommonPrefix("-", endA, endB);
    PaddedOrder(a.month, b.month, 2, "-" + endA, "-" + endB);
    TextLeCommonPrefix("-", Padded(a.month, 2) + ("-" + endA), Padded(b.month, 2) + ("-" + endB));
    PaddedOrder(a.year, b.year, 4, "-" + (Padded(a.month, 2) + ("-" + endA)),
                "-" + (Padded(b.month, 2) + ("-" + endB)));
  }

  /** A bare year comes before exactly the days of that year and later. */
  lemma YearBeforeDay(year: nat, d: Day)
    requires year <= 9999 && Printable(d)
    ensures TextLe(IsoYear(year), IsoDay(d)) <==> year <= d.year
  {
    Powers();
    var rest := "-" + (Padded(d.month, 2) + ("-" + Padded(d.day, 2)));
    PaddedOrder(year, d.year, 4, "", rest);
    assert IsoYear(year) + "" == IsoYear(year);
  }
}
