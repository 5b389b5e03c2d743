/**
 * Calendar timestamps and their ISO-8601 text form, as produced by
 * `Timestamp.isoformat()` for a value without sub-second part:
 * `YYYY-MM-DDTHH:MM:SS`.
 *
 * The lenient parser used by the cleaning stage is foreign code and stays a
 * parameter of the model (see Transform); this module gives the formatter
 * and a strict parser for the canonical form, proved to be inverses.
 */
module Dates {

  import opened Options

  datatype DateTime = DateTime(year: int, month: int, day: int, hour: int, minute: int, second: int)

  predicate IsLeapYear(y: int) {
    y % 4 == 0 && (y % 100 != 0 || y % 400 == 0)
  }

  function DaysInMonth(y: int, m: int): (n: int)
    requires 1 <= m <= 12
    ensures 28 <= n <= 31
  {
    if m == 2 then (if IsLeapYear(y) then 29 else 28)
    else if m == 4 || m == 6 || m == 9 || m == 11 then 30
    else 31
  }

  /** A real calendar instant with second resolution and a four-digit year. */
  predicate ValidDateTime(d: DateTime) {
    && 1 <= d.year <= 9999
    && 1 <= d.month <= 12
    && 1 <= d.day <= DaysInMonth(d.year, d.month)
    && 0 <= d.hour < 24
    && 0 <= d.minute < 60
    && 0 <= d.second < 60
  }

  type Timestamp = d: DateTime | ValidDateTime(d) witness DateTime(1970, 1, 1, 0, 0, 0)

  predicate IsDigit(c: char) {
    '0' <= c <= '9'
  }

  function Digit(n: int): (c: char)
    requires 0 <= n < 10
    ensures IsDigit(c)
  {
    ('0' as int + n) as char
  }

  function DigitValue(c: char): (n: int)
    requires IsDigit(c)
    ensures 0 <= n < 10 && Digit(n) == c
  {
    c as int - '0' as int
  }

  /** Two decimal digits, zero-padded. */
  function Pad2(n: int): (s: string)
    requires 0 <= n < 100
    ensures |s| == 2 && IsDigit(s[0]) && IsDigit(s[1])
  {
    [Digit(n / 10), Digit(n % 10)]
  }

  /** Four decimal digits, zero-padded. */
  function Pad4(n: int): (s: string)
    requires 0 <= n < 10000
    ensures |s| == 4 && forall i :: 0 <= i < 4 ==> IsDigit(s[i])
  {
    Pad2(n / 100) + Pad2(n % 100)
  }

  function Num2(a: char, b: char): (n: int)
    requires IsDigit(a) && IsDigit(b)
    ensures 0 <= n < 100
  {
    10 * DigitValue(a) + DigitValue(b)
  }

  function Num4(s: string): (n: int)
    requires |s| == 4 && forall i :: 0 <= i < 4 ==> IsDigit(s[i])
    ensures 0 <= n < 10000
  {
    100 * Num2(s[0], s[1]) + Num2(s[2], s[3])
  }

  /** `Timestamp.isoformat()` for a timestamp without fractional seconds. */
  function Iso(d: Timestamp): (s: string)
    ensures |s| == 19
    ensures s[4] == '-' && s[7] == '-' && s[10] == 'T' && s[13] == ':' && s[16] == ':'
  {
    Pad4(d.year) + "-" + Pad2(d.month) + "-" + Pad2(d.day) + "T"
    + Pad2(d.hour) + ":" + Pad2(d.minute) + ":" + Pad2(d.second)
  }

  /** The positions of `YYYY-MM-DDTHH:MM:SS` that hold digits. */
  predicate IsDigitPosition(i: int) {
    0 <= i < 19 && i != 4 && i != 7 && i != 10 && i != 13 && i != 16
  }

  predicate IsoShaped(s: string) {
    && |s| == 19
    && s[4] == '-' && s[7] == '-' && s[10] == 'T' && s[13] == ':' && s[16] == ':'
    && forall i :: 0 <= i < 19 && IsDigitPosition(i) ==> IsDigit(s[i])
  }

  /** Reads the canonical form back; anything else, or an impossible date, is rejected. */
  function ParseIso(s: string): (r: Option<Timestamp>)
    ensures r.Some? ==> IsoShaped(s)
  {
    if !IsoShaped(s) then None
    else
      assert forall i :: 0 <= i < 4 ==> IsDigit(s[0..4][i]) by {
        forall i | 0 <= i < 4 ensures IsDigit(s[0..4][i]) { assert IsDigitPosition(i); }
      }
      assert IsDigitPosition(5) && IsDigitPosition(6) && IsDigitPosition(8) && IsDigitPosition(9);
      assert IsDigitPosition(11) && IsDigitPosition(12) && IsDigitPosition(14) && IsDigitPosition(15);
      assert IsDigitPosition(17) && IsDigitPosition(18);
      var d := DateTime(Num4(s[0..4]), Num2(s[5], s[6]), Num2(s[8], s[9]),
                        Num2(s[11], s[12]), Num2(s[14], s[15]), Num2(s[17], s[18]));
      if ValidDateTime(d) then Some(d) else None
  }

  lemma Pad2RoundTrip(n: int)
    requires 0 <= n < 100
    ensures Num2(Pad2(n)[0], Pad2(n)[1]) == n
  {
  }

  lemma Num2RoundTrip(a: char, b: char)
    requires IsDigit(a) && IsDigit(b)
    ensures Pad2(Num2(a, b)) == [a, b]
  {
    var n := Num2(a, b);
    assert n / 10 == DigitValue(a) && n % 10 == DigitValue(b);
  }

  lemma Pad4RoundTrip(n: int)
    requires 0 <= n < 10000
    ensures Num4(Pad4(n)) == n
  {
    Pad2RoundTrip(n / 100);
    Pad2RoundTrip(n % 100);
  }

  lemma Num4RoundTrip(s: string)
    requires |s| == 4 && forall i :: 0 <= i < 4 ==> IsDigit(s[i])
    ensures Pad4(Num4(s)) == s
  {
    var n := Num4(s);
    assert n / 100 == Num2(s[0], s[1]) && n % 100 == Num2(s[2], s[3]);
    Num2RoundTrip(s[0], s[1]);
    Num2RoundTrip(s[2], s[3]);
  }

  /** Formatting then parsing gives the timestamp back. */
  lemma ParseIsoOfIso(d: Timestamp)
    ensures ParseIso(Iso(d)) == Some(d)
  {
    var s := Iso(d);
    assert s[0..4] == Pad4(d.year);
    assert [s[5], s[6]] == Pad2(d.month);
    assert [s[8], s[9]] == Pad2(d.day);
    assert [s[11], s[12]] == Pad2(d.hour);
    assert [s[14], s[15]] == Pad2(d.minute);
    assert [s[17], s[18]] == Pad2(d.second);
    Pad4RoundTrip(d.year);
    Pad2RoundTrip(d.month);
    Pad2RoundTrip(d.day);
    Pad2RoundTrip(d.hour);
    Pad2RoundTrip(d.minute);
    Pad2RoundTrip(d.second);
  }

  /** Whatever the strict parser accepts is already in canonical form. */
  lemma IsoOfParseIso(s: string)
    requires ParseIso(s).Some?
    ensures Iso(ParseIso(s).value) == s
  {
    var d := ParseIso(s).value;
    assert forall i :: 0 <= i < 4 ==> IsDigit(s[0..4][i]) by {
      forall i | 0 <= i < 4 ensures IsDigit(s[0..4][i]) { assert IsDigitPosition(i); }
    }
    assert IsDigitPosition(5) && IsDigitPosition(6) && IsDigitPosition(8) && IsDigitPosition(9);
    assert IsDigitPosition(11) && IsDigitPosition(12) && IsDigitPosition(14) && IsDigitPosition(15);
    assert IsDigitPosition(17) && IsDigitPosition(18);
    Num4RoundTrip(s[0..4]);
    Num2RoundTrip(s[5], s[6]);
    Num2RoundTrip(s[8], s[9]);
    Num2RoundTrip(s[11], s[12]);
    Num2RoundTrip(s[14], s[15]);
    Num2RoundTrip(s[17], s[18]);
    assert s == s[0..4] + "-" + [s[5], s[6]] + "-" + [s[8], s[9]] + "T"
           + [s[11], s[12]] + ":" + [s[14], s[15]] + ":" + [s[17], s[18]];
  }

  /** The example of the cleaning tests: midnight of 5 May 1985. */
  lemma IsoExample()
    ensures Iso(DateTime(1985, 5, 5, 0, 0, 0)) == "1985-05-05T00:00:00"
  {
  }
}
