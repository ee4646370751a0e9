/**
 * The order number the `beforeCreate` hook of the Order model writes into
 * `siparis_no`: "EK", the last two digits of the year, the two-digit month, the
 * two-digit day of the month and a four-digit random part (models/Order.js:84-92).
 * The clock and `Math.random()` are parameters.
 */
module OrderNumber {
  import opened Strings
  import opened Wrappers

  const Prefix: string := "EK"

  /** Width of the `siparis_no` column, STRING(20). */
  const ColumnWidth: nat := 20

  /** `s.slice(-2)`: the last two characters, or the whole string when it is shorter. */
  function LastTwo(s: string): (r: string)
    ensures |s| >= 2 ==> |r| == 2 && s == s[..|s| - 2] + r
    ensures |s| < 2 ==> r == s
  {
    if |s| < 2 then s else s[|s| - 2..]
  }

  /** `Math.floor(random * 10000)` for a `random` drawn from [0, 1). */
  function RandomPart(random: real): (r: nat)
    requires 0.0 <= random < 1.0
    ensures r <= 9999
  {
    (random * 10000.0).Floor
  }

  /**
   * The order number for a creation at `year`, month `month0` as `getMonth()` gives it
   * (0 for January), day `date` of the month, with `random` from `Math.random()`.
   */
  function Encode(year: nat, month0: nat, date: nat, random: real): string
    requires month0 < 12 && 1 <= date <= 31 && 0.0 <= random < 1.0
  {
    Assemble(LastTwo(NatToString(year)), ZeroPadded(month0 + 1, 2), ZeroPadded(date, 2),
      ZeroPadded(RandomPart(random), 4))
  }

  /** The template literal `EK${yil}${ay}${gun}${rastgele}`. */
  function Assemble(yy: string, mm: string, dd: string, rrrr: string): string
  {
    Prefix + yy + mm + dd + rrrr
  }

  /** With fields of widths 2, 2, 2 and 4, each field sits at a fixed offset. */
  lemma AssembleSlices(yy: string, mm: string, dd: string, rrrr: string)
    requires |yy| == 2 && |mm| == 2 && |dd| == 2 && |rrrr| == 4
    ensures var s := Assemble(yy, mm, dd, rrrr);
      |s| == 12 && s[..2] == Prefix && s[2..4] == yy && s[4..6] == mm && s[6..8] == dd
      && s[8..] == rrrr && s[2..] == yy + mm + dd + rrrr
  {
  }

  /** The four fields of an order number, each as the digits it is written with. */
  lemma FieldDigits(year: nat, month0: nat, date: nat, random: real)
    requires month0 < 12 && 1 <= date <= 31 && 0.0 <= random < 1.0
    requires year >= 10
    ensures var (y, m, d, r) := (LastTwo(NatToString(year)), ZeroPadded(month0 + 1, 2),
      ZeroPadded(date, 2), ZeroPadded(RandomPart(random), 4));
      |y| == 2 && |m| == 2 && |d| == 2 && |r| == 4
      && AllDigits(y) && AllDigits(m) && AllDigits(d) && AllDigits(r)
      && DigitsValue(y) == year % 100 && DigitsValue(m) == month0 + 1
      && DigitsValue(d) == date && DigitsValue(r) == RandomPart(random)
  {
    YearDigits(year);
    assert Pow10(2) == 100 && Pow10(4) == 10000;
    ZeroPaddedExact(month0 + 1, 2);
    ZeroPaddedExact(date, 2);
    ZeroPaddedExact(RandomPart(random), 4);
  }

  /** The fields an order number carries, read back by fixed slicing. */
  datatype Parts = Parts(yearMod100: nat, month: nat, day: nat, random: nat)

  function Decode(s: string): (r: Option<Parts>)
    ensures r.Some? ==> |s| == 12 && s[..2] == Prefix
  {
    if |s| == 12 && s[..2] == Prefix && AllDigits(s[2..4]) && AllDigits(s[4..6])
       && AllDigits(s[6..8]) && AllDigits(s[8..])
    then Some(Parts(DigitsValue(s[2..4]), DigitsValue(s[4..6]), DigitsValue(s[6..8]), DigitsValue(s[8..])))
    else None
  }

  lemma ModUnique10(n: nat, q: nat, r: nat)
    requires r < 10 && n == q * 10 + r
    ensures r == n % 10 && q == n / 10
  {
  }

  lemma ModUnique100(n: nat, q: nat, r: nat)
    requires r < 100 && n == q * 100 + r
    ensures r == n % 100
  {
  }

  /** For a year of at least two digits, `slice(-2)` gives two digits denoting the year mod 100. */
  lemma YearDigits(year: nat)
    requires year >= 10
    ensures |LastTwo(NatToString(year))| == 2
    ensures AllDigits(LastTwo(NatToString(year)))
    ensures DigitsValue(LastTwo(NatToString(year))) == year % 100
  {
    var s := NatToString(year);
    assert |s| >= 2;
    var head, tail := s[..|s| - 2], LastTwo(s);
    assert s == head + tail;
    assert AllDigits(head) && AllDigits(tail) by {
      forall i | 0 <= i < |head| ensures IsDigit(head[i]) { assert head[i] == s[i]; }
      forall i | 0 <= i < |tail| ensures IsDigit(tail[i]) { assert tail[i] == s[|s| - 2 + i]; }
    }
    DigitsValueConcat(head, tail);
    NatToStringRoundTrip(year);
    DigitsValueBound(tail);
    assert Pow10(2) == 100;
    ModUnique100(year, DigitsValue(head), DigitsValue(tail));
  }

  /** Every order number is "EK" and ten digits: twelve characters, within the column. */
  lemma {:induction false} EncodeFormat(year: nat, month0: nat, date: nat, random: real)
    requires month0 < 12 && 1 <= date <= 31 && 0.0 <= random < 1.0
    requires year >= 10
    ensures var s := Encode(year, month0, date, random);
      |s| == 12 && |s| <= ColumnWidth && s[..2] == Prefix && AllDigits(s[2..])
  {
    var y, m, d, r := LastTwo(NatToString(year)), ZeroPadded(month0 + 1, 2), ZeroPadded(date, 2),
      ZeroPadded(RandomPart(random), 4);
    FieldDigits(year, month0, date, random);
    AssembleSlices(y, m, d, r);
    AllDigitsConcat(y, m, d, r);
  }

  lemma AllDigitsConcat(a: string, b: string, c: string, d: string)
    requires AllDigits(a) && AllDigits(b) && AllDigits(c) && AllDigits(d)
    ensures AllDigits(a + b + c + d)
  {
  }

  /** Fixed slicing recovers the year mod 100, the month (1-12), the day and the random part. */
  lemma {:induction false} DecodeEncode(year: nat, month0: nat, date: nat, random: real)
    requires month0 < 12 && 1 <= date <= 31 && 0.0 <= random < 1.0
    requires year >= 10
    ensures Decode(Encode(year, month0, date, random))
      == Some(Parts(year % 100, month0 + 1, date, RandomPart(random)))
  {
    var y, m, d, r := LastTwo(NatToString(year)), ZeroPadded(month0 + 1, 2), ZeroPadded(date, 2),
      ZeroPadded(RandomPart(random), 4);
    FieldDigits(year, month0, date, random);
    AssembleSlices(y, m, d, r);
  }

  /** The month field always reads 01-12 and the day field 01-31. */
  lemma MonthAndDayInRange(year: nat, month0: nat, date: nat, random: real)
    requires month0 < 12 && 1 <= date <= 31 && 0.0 <= random < 1.0
    requires year >= 10
    ensures var p := Decode(Encode(year, month0, date, random));
      p.Some? && 1 <= p.value.month <= 12 && 1 <= p.value.day <= 31 && p.value.random <= 9999
  {
    DecodeEncode(year, month0, date, random);
  }

  /** Two strings of decimal digits of one length and one value are the same string. */
  lemma {:induction false} DigitsInjective(a: string, b: string)
    requires AllDigits(a) && AllDigits(b) && |a| == |b|
    requires DigitsValue(a) == DigitsValue(b)
    ensures a == b
  {
    if a != [] {
      var a', b' := a[..|a| - 1], b[..|b| - 1];
      var x, y := DigitValue(a[|a| - 1]), DigitValue(b[|b| - 1]);
      ModUnique10(DigitsValue(a), DigitsValue(a'), x);
      ModUnique10(DigitsValue(b), DigitsValue(b'), y);
      assert x == y;
      assert DigitsValue(a') == DigitsValue(b');
      DigitsInjective(a', b');
      assert a == a' + [a[|a| - 1]] && b == b' + [b[|b| - 1]];
    }
  }

  /**
   * Two orders get the same number exactly when they share the year mod 100, the month,
   * the day and the random part: the unique index on `siparis_no` (models/Order.js:13)
   * rejects the second of two such orders.
   */
  lemma EncodeCollidesIff(y1: nat, m1: nat, d1: nat, r1: real, y2: nat, m2: nat, d2: nat, r2: real)
    requires m1 < 12 && 1 <= d1 <= 31 && 0.0 <= r1 < 1.0 && y1 >= 10
    requires m2 < 12 && 1 <= d2 <= 31 && 0.0 <= r2 < 1.0 && y2 >= 10
    ensures Encode(y1, m1, d1, r1) == Encode(y2, m2, d2, r2)
      <==> y1 % 100 == y2 % 100 && m1 == m2 && d1 == d2 && RandomPart(r1) == RandomPart(r2)
  {
    if Encode(y1, m1, d1, r1) == Encode(y2, m2, d2, r2) {
      EncodeInjective(y1, m1, d1, r1, y2, m2, d2, r2);
    }
    if y1 % 100 == y2 % 100 && m1 == m2 && d1 == d2 && RandomPart(r1) == RandomPart(r2) {
      SameFieldsSameNumber(y1, m1, d1, r1, y2, r2);
    }
  }

  lemma EncodeInjective(y1: nat, m1: nat, d1: nat, r1: real, y2: nat, m2: nat, d2: nat, r2: real)
    requires m1 < 12 && 1 <= d1 <= 31 && 0.0 <= r1 < 1.0 && y1 >= 10
    requires m2 < 12 && 1 <= d2 <= 31 && 0.0 <= r2 < 1.0 && y2 >= 10
    requires Encode(y1, m1, d1, r1) == Encode(y2, m2, d2, r2)
    ensures y1 % 100 == y2 % 100 && m1 == m2 && d1 == d2 && RandomPart(r1) == RandomPart(r2)
  {
    DecodeEncode(y1, m1, d1, r1);
    DecodeEncode(y2, m2, d2, r2);
  }

  lemma SameFieldsSameNumber(y1: nat, m: nat, d: nat, r1: real, y2: nat, r2: real)
    requires m < 12 && 1 <= d <= 31 && 0.0 <= r1 < 1.0 && 0.0 <= r2 < 1.0 && y1 >= 10 && y2 >= 10
    requires y1 % 100 == y2 % 100 && RandomPart(r1) == RandomPart(r2)
    ensures Encode(y1, m, d, r1) == Encode(y2, m, d, r2)
  {
    YearDigits(y1);
    YearDigits(y2);
    DigitsInjective(LastTwo(NatToString(y1)), LastTwo(NatToString(y2)));
  }
}
