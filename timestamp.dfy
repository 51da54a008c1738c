/** The time stamp of a log file name: `new SimpleDateFormat("yyyyMMdd_HHmmss")`
    applied to the current date, with ASCII digits. */
module Timestamp {
  import opened Common

  /** The calendar fields of the moment the log is saved. */
  datatype DateTime = DateTime(year: nat, month: nat, day: nat, hour: nat, minute: nat, second: nat)

  /** A clock reading with a four-digit year. */
  predicate Valid(t: DateTime) {
    t.year < 10000 && 1 <= t.month <= 12 && 1 <= t.day <= 31 && t.hour < 24 && t.minute < 60 && t.second < 60
  }

  predicate IsDigit(c: char) {
    '0' <= c <= '9'
  }

  predicate AllDigits(s: string) {
    forall i :: 0 <= i < |s| ==> IsDigit(s[i])
  }

  function DigitChar(d: nat): (c: char)
    requires d < 10
    ensures IsDigit(c)
  {
    ('0' as int + d) as char
  }

  function DigitValue(c: char): (d: nat)
    requires IsDigit(c)
    ensures d < 10
  {
    c as int - '0' as int
  }

  function Pow10(k: nat): nat {
    if k == 0 then 1 else 10 * Pow10(k - 1)
  }

  /** The decimal digits of `n`, without leading zeros. */
  function Decimal(n: nat): (r: string)
    ensures |r| >= 1 && AllDigits(r)
    decreases n
  {
    if n < 10 then [DigitChar(n)] else Decimal(n / 10) + [DigitChar(n % 10)]
  }

  /** The number a string of decimal digits denotes. */
  function Value(s: string): nat
    requires AllDigits(s)
    decreases |s|
  {
    if s == [] then 0 else Value(s[..|s| - 1]) * 10 + DigitValue(s[|s| - 1])
  }

  function Zeros(k: nat): (z: string)
    ensures |z| == k && AllDigits(z)
  {
    seq(k, _ => '0')
  }

  lemma {:induction false} ValueOfDecimal(n: nat)
    ensures Value(Decimal(n)) == n
    decreases n
  {
    if n >= 10 {
      var d := Decimal(n);
      assert d[..|d| - 1] == Decimal(n / 10);
      ValueOfDecimal(n / 10);
    }
  }

  lemma {:induction false} DecimalLength(n: nat, k: nat)
    requires 1 <= k && n < Pow10(k)
    ensures |Decimal(n)| <= k
    decreases n
  {
    if n >= 10 {
      assert Pow10(1) == 10;
      DecimalLength(n / 10, k - 1);
    }
  }

  lemma {:induction false} ValueOfZeros(k: nat)
    ensures Value(Zeros(k)) == 0
  {
    if k > 0 {
      assert Zeros(k)[..k - 1] == Zeros(k - 1);
      ValueOfZeros(k - 1);
    }
  }

  /** Leading zeros do not change the value. */
  lemma {:induction false} ValueOfPadded(k: nat, s: string)
    requires AllDigits(s)
    ensures AllDigits(Zeros(k) + s) && Value(Zeros(k) + s) == Value(s)
    decreases |s|
  {
    var z := Zeros(k) + s;
    if s == [] {
      assert z == Zeros(k);
      ValueOfZeros(k);
    } else {
      assert z[..|z| - 1] == Zeros(k) + s[..|s| - 1];
      ValueOfPadded(k, s[..|s| - 1]);
    }
  }

  /** A field printed with at least `width` digits, zero-padded on the left. */
  function ZeroPad(n: nat, width: nat): (r: string)
    ensures AllDigits(r) && Value(r) == n
    ensures |r| == if |Decimal(n)| < width then width else |Decimal(n)|
  {
    var d := Decimal(n);
    ValueOfDecimal(n);
    ValueOfPadded(if |d| < width then width - |d| else 0, d);
    if |d| < width then Zeros(width - |d|) + d else Zeros(0) + d
  }

  /** `yyyyMMdd_HHmmss`. */
  function Format(t: DateTime): string {
    ZeroPad(t.year, 4) + ZeroPad(t.month, 2) + ZeroPad(t.day, 2) + "_"
      + ZeroPad(t.hour, 2) + ZeroPad(t.minute, 2) + ZeroPad(t.second, 2)
  }

  /** Fifteen characters: eight digits, '_', six digits. */
  predicate IsStamp(s: string) {
    |s| == 15 && s[8] == '_' && forall i :: 0 <= i < 15 && i != 8 ==> IsDigit(s[i])
  }

  /** Reads a time stamp back. */
  function Parse(s: string): Option<DateTime> {
    if IsStamp(s) then
      var t := DateTime(Value(s[..4]), Value(s[4..6]), Value(s[6..8]), Value(s[9..11]), Value(s[11..13]), Value(s[13..15]));
      if Valid(t) then Some(t) else None
    else None
  }

  /** Every valid clock reading prints as fifteen characters with '_' in the middle. */
  lemma FormatShape(t: DateTime)
    requires Valid(t)
    ensures IsStamp(Format(t))
  {
    DecimalLength(t.year, 4);
    DecimalLength(t.month, 2);
    DecimalLength(t.day, 2);
    DecimalLength(t.hour, 2);
    DecimalLength(t.minute, 2);
    DecimalLength(t.second, 2);
  }

  /** Where each field sits in a stamp assembled from fields of the printed widths. */
  lemma StampSlices(y: string, mo: string, d: string, h: string, mi: string, se: string)
    requires |y| == 4 && |mo| == 2 && |d| == 2 && |h| == 2 && |mi| == 2 && |se| == 2
    ensures var s := y + mo + d + "_" + h + mi + se;
      s[..4] == y && s[4..6] == mo && s[6..8] == d && s[9..11] == h && s[11..13] == mi && s[13..15] == se
  {
    var date := y + mo + d;
    var time := h + mi + se;
    assert y + mo + d + "_" + h + mi + se == date + "_" + time;
    var s := date + "_" + time;
    assert s[..8] == date && s[9..] == time;
    assert date[..4] == y && date[4..6] == mo && date[6..] == d;
    assert time[..2] == h && time[2..4] == mi && time[4..] == se;
  }

  /** The time stamp records the moment exactly: reading it back gives the fields. */
  lemma ParseFormat(t: DateTime)
    requires Valid(t)
    ensures Parse(Format(t)) == Some(t)
  {
    FormatShape(t);
    var y, mo, d := ZeroPad(t.year, 4), ZeroPad(t.month, 2), ZeroPad(t.day, 2);
    var h, mi, se := ZeroPad(t.hour, 2), ZeroPad(t.minute, 2), ZeroPad(t.second, 2);
    StampSlices(y, mo, d, h, mi, se);
  }

  /** Two different moments never print alike. */
  lemma FormatInjective(t1: DateTime, t2: DateTime)
    requires Valid(t1) && Valid(t2) && t1 != t2
    ensures Format(t1) != Format(t2)
  {
    ParseFormat(t1);
    ParseFormat(t2);
  }
}
