/**
 * `format_timestamp`: a whole number of seconds rendered as `HH:MM:SS`,
 * each field zero-padded to two digits, the hours field never truncated.
 */
module Timestamp {
  import opened Wrappers
  import opened PyStrings

  /** A duration split into its three clock fields. */
  datatype Clock = Clock(hours: nat, minutes: nat, secs: nat)

  predicate IsDigit(c: char) {
    '0' <= c <= '9'
  }

  predicate AllDigits(s: string) {
    forall i :: 0 <= i < |s| ==> IsDigit(s[i])
  }

  function Max(a: int, b: int): int {
    if a < b then b else a
  }

  function DigitChar(d: nat): (c: char)
    requires d < 10
    ensures IsDigit(c) && c as int - '0' as int == d
  {
    "0123456789"[d]
  }

  function DigitValue(c: char): nat
    requires IsDigit(c)
  {
    c as int - '0' as int
  }

  /** How many digits Python prints for `n`. */
  function NumDigits(n: nat): (k: nat)
    ensures k >= 1
  {
    if n < 10 then 1 else 1 + NumDigits(n / 10)
  }

  lemma NumDigitsAtMostTwo(n: nat)
    ensures NumDigits(n) <= 2 <==> n < 100
  {
    if n >= 10 {
      assert NumDigits(n) == 1 + NumDigits(n / 10);
      if n >= 100 {
        assert NumDigits(n / 10) == 1 + NumDigits(n / 100);
      }
    }
  }

  /** `str(n)` for a non-negative integer: canonical decimal, no leading zero. */
  function Decimal(n: nat): string {
    if n < 10 then [DigitChar(n)] else Decimal(n / 10) + [DigitChar(n % 10)]
  }

  /** `str(n)` has `NumDigits(n)` digits and, apart from zero itself, no leading zero. */
  lemma {:induction false} DecimalShape(n: nat)
    ensures var s := Decimal(n);
            && |s| == NumDigits(n)
            && AllDigits(s)
            && (s[0] != '0' || n == 0)
  {
    if n >= 10 {
      DecimalShape(n / 10);
    }
  }

  /** The number a string of decimal digits denotes, most significant first. */
  function DecimalValue(s: string): nat
    requires AllDigits(s)
  {
    if s == [] then 0 else 10 * DecimalValue(s[..|s| - 1]) + DigitValue(s[|s| - 1])
  }

  lemma {:induction false} DecimalRoundTrip(n: nat)
    ensures AllDigits(Decimal(n)) && DecimalValue(Decimal(n)) == n
  {
    DecimalShape(n);
    if n >= 10 {
      var s := Decimal(n);
      assert s[..|s| - 1] == Decimal(n / 10);
      DecimalRoundTrip(n / 10);
    }
  }

  /** Leading zeros do not change the value of a digit string. */
  lemma {:induction false} LeadingZerosValue(z: string, s: string)
    requires forall i :: 0 <= i < |z| ==> z[i] == '0'
    requires AllDigits(s)
    ensures AllDigits(z + s) && DecimalValue(z + s) == DecimalValue(s)
  {
    if s == [] {
      assert z + s == z;
      ZerosValue(z);
    } else {
      assert (z + s)[..|z + s| - 1] == z + s[..|s| - 1];
      LeadingZerosValue(z, s[..|s| - 1]);
    }
  }

  lemma {:induction false} ZerosValue(z: string)
    requires forall i :: 0 <= i < |z| ==> z[i] == '0'
    ensures AllDigits(z) && DecimalValue(z) == 0
  {
    if z != [] {
      ZerosValue(z[..|z| - 1]);
    }
  }

  /** The format specifier `02d`: `s` left-padded with zeros to width 2. */
  function ZeroPad2(s: string): string {
    if |s| < 2 then Repeat('0', 2 - |s|) + s else s
  }

  /** Padding keeps `s` as the tail, adds only zeros, and never cuts anything off. */
  lemma ZeroPad2Shape(s: string)
    ensures var r := ZeroPad2(s);
            && |r| == Max(2, |s|)
            && r[|r| - |s|..] == s
            && (forall i :: 0 <= i < |r| - |s| ==> r[i] == '0')
  {
  }

  /** One clock field, `f"{n:02d}"`. */
  function Field(n: nat): string {
    ZeroPad2(Decimal(n))
  }

  /**
   * A field is all digits, never shorter than two and never truncated: it
   * is exactly two long below 100, and it reads back as `n`.
   */
  lemma FieldShape(n: nat)
    ensures |Field(n)| == Max(2, NumDigits(n))
    ensures |Field(n)| == 2 <==> n < 100
    ensures AllDigits(Field(n)) && DecimalValue(Field(n)) == n
  {
    var d := Decimal(n);
    var f := Field(n);
    DecimalShape(n);
    ZeroPad2Shape(d);
    NumDigitsAtMostTwo(n);
    assert f == f[..|f| - |d|] + d;
    LeadingZerosValue(f[..|f| - |d|], d);
    DecimalRoundTrip(n);
  }

  /** The three fields the source computes with floor division and modulo. */
  function ToClock(seconds: nat): Clock {
    Clock(seconds / 3600, (seconds % 3600) / 60, seconds % 60)
  }

  /** The fields decompose `seconds` exactly, with minutes and seconds below 60. */
  lemma ToClockDecomposes(seconds: nat)
    ensures var c := ToClock(seconds);
            && c.minutes < 60 && c.secs < 60
            && c.hours * 3600 + c.minutes * 60 + c.secs == seconds
  {
    var h, rest := seconds / 3600, seconds % 3600;
    var m, s := rest / 60, rest % 60;
    assert rest == m * 60 + s;
    assert seconds == (h * 60 + m) * 60 + s;
    DivMod60Unique(seconds, h * 60 + m, s);
  }

  /** Division by 60 has one quotient and one remainder. */
  lemma DivMod60Unique(n: nat, q: nat, r: nat)
    requires r < 60 && n == q * 60 + r
    ensures n / 60 == q && n % 60 == r
  {
  }

  /** Any decomposition with minutes and seconds below 60 is the one `ToClock` gives. */
  lemma ToClockUnique(h: nat, m: nat, s: nat)
    requires m < 60 && s < 60
    ensures ToClock(h * 3600 + m * 60 + s) == Clock(h, m, s)
  {
    var n := h * 3600 + m * 60 + s;
    var c := ToClock(n);
    ToClockDecomposes(n);
    assert (c.hours - h) * 3600 == (m - c.minutes) * 60 + (s - c.secs);
    assert c.hours == h;
    assert (c.minutes - m) * 60 == s - c.secs;
  }

  /** Three fields joined by colons, with the shape of an `HH:MM:SS` string. */
  lemma JoinedFieldsShape(hh: string, mm: string, ss: string)
    requires AllDigits(hh) && AllDigits(mm) && AllDigits(ss)
    requires |mm| == 2 && |ss| == 2
    ensures var r := hh + ":" + mm + ":" + ss;
            && |r| == |hh| + 6
            && r[|r| - 6] == ':' && r[|r| - 3] == ':'
            && (forall i :: 0 <= i < |r| && i != |r| - 6 && i != |r| - 3 ==> IsDigit(r[i]))
            && r[..|r| - 6] == hh && r[|r| - 5..|r| - 3] == mm && r[|r| - 2..] == ss
  {
    var r := hh + ":" + mm + ":" + ss;
    assert forall i :: 0 <= i < |hh| ==> r[i] == hh[i];
    assert r[|hh|] == ':' && r[|hh| + 1] == mm[0] && r[|hh| + 2] == mm[1];
    assert r[|hh| + 3] == ':' && r[|hh| + 4] == ss[0] && r[|hh| + 5] == ss[1];
  }

  /** `format_timestamp(seconds)` for whole, non-negative `seconds`. */
  function FormatTimestamp(seconds: nat): (r: string)
  {
    var c := ToClock(seconds);
    Field(c.hours) + ":" + Field(c.minutes) + ":" + Field(c.secs)
  }

  /**
   * The rendering is digits except for exactly two colons, the last two
   * fields are two digits each, and the hours field is as long as the hours
   * need but never shorter than two.
   */
  lemma FormatTimestampShape(seconds: nat)
    ensures var r := FormatTimestamp(seconds);
            && |r| == Max(2, NumDigits(seconds / 3600)) + 6
            && r[|r| - 6] == ':' && r[|r| - 3] == ':'
            && (forall i :: 0 <= i < |r| && i != |r| - 6 && i != |r| - 3 ==> IsDigit(r[i]))
  {
    var c := ToClock(seconds);
    ToClockDecomposes(seconds);
    FieldShape(c.hours);
    FieldShape(c.minutes);
    FieldShape(c.secs);
    JoinedFieldsShape(Field(c.hours), Field(c.minutes), Field(c.secs));
  }

  /**
   * Each field of the rendering reads back as its own clock value: the part
   * before the first colon is the hours, the two digits between the colons
   * the minutes, the last two digits the seconds.
   */
  lemma FormatTimestampFields(seconds: nat)
    ensures var r := FormatTimestamp(seconds);
            && |r| >= 8
            && AllDigits(r[..|r| - 6]) && DecimalValue(r[..|r| - 6]) == seconds / 3600
            && AllDigits(r[|r| - 5..|r| - 3]) && DecimalValue(r[|r| - 5..|r| - 3]) == (seconds % 3600) / 60
            && AllDigits(r[|r| - 2..]) && DecimalValue(r[|r| - 2..]) == seconds % 60
  {
    var c := ToClock(seconds);
    ToClockDecomposes(seconds);
    FieldShape(c.hours);
    FieldShape(c.minutes);
    FieldShape(c.secs);
    JoinedFieldsShape(Field(c.hours), Field(c.minutes), Field(c.secs));
  }

  /** Reads an `H..H:MM:SS` string back as a number of seconds. */
  function ParseTimestamp(r: string): Option<nat> {
    if |r| < 8 || r[|r| - 6] != ':' || r[|r| - 3] != ':' then None
    else
      var hh, mm, ss := r[..|r| - 6], r[|r| - 5..|r| - 3], r[|r| - 2..];
      if AllDigits(hh) && AllDigits(mm) && AllDigits(ss)
      then Some(DecimalValue(hh) * 3600 + DecimalValue(mm) * 60 + DecimalValue(ss))
      else None
  }

  /** A string that splits into digit fields at its two colons reads back as their clock value. */
  lemma ParseSplitFields(r: string, hh: string, mm: string, ss: string)
    requires AllDigits(hh) && AllDigits(mm) && AllDigits(ss)
    requires |r| >= 8 && r[|r| - 6] == ':' && r[|r| - 3] == ':'
    requires r[..|r| - 6] == hh && r[|r| - 5..|r| - 3] == mm && r[|r| - 2..] == ss
    ensures ParseTimestamp(r) == Some(DecimalValue(hh) * 3600 + DecimalValue(mm) * 60 + DecimalValue(ss))
  {
  }

  /** The rendering loses nothing: it reads back as the number of seconds it came from. */
  lemma FormatTimestampRoundTrip(seconds: nat)
    ensures ParseTimestamp(FormatTimestamp(seconds)) == Some(seconds)
  {
    var c := ToClock(seconds);
    ToClockDecomposes(seconds);
    FieldShape(c.hours);
    FieldShape(c.minutes);
    FieldShape(c.secs);
    var hh, mm, ss := Field(c.hours), Field(c.minutes), Field(c.secs);
    JoinedFieldsShape(hh, mm, ss);
    ParseSplitFields(hh + ":" + mm + ":" + ss, hh, mm, ss);
  }

  /** Different durations never render alike. */
  lemma FormatTimestampInjective(a: nat, b: nat)
    requires FormatTimestamp(a) == FormatTimestamp(b)
    ensures a == b
  {
    FormatTimestampRoundTrip(a);
    FormatTimestampRoundTrip(b);
  }

  /** Fields of the documented examples, `f"{n:02d}"`. */
  lemma ExampleFields()
    ensures Field(0) == "00" && Field(1) == "01" && Field(5) == "05"
    ensures Field(59) == "59" && Field(100) == "100"
  {
  }

  /** Clock fields of the documented examples. */
  lemma ExampleClocks()
    ensures ToClock(0) == Clock(0, 0, 0) && ToClock(59) == Clock(0, 0, 59)
    ensures ToClock(65) == Clock(0, 1, 5) && ToClock(3661) == Clock(1, 1, 1)
    ensures ToClock(360000) == Clock(100, 0, 0)
  {
  }

  /** `format_timestamp` joins the three fields of `ToClock` with colons. */
  lemma FormatFromClock(seconds: nat, h: nat, m: nat, s: nat)
    requires ToClock(seconds) == Clock(h, m, s)
    ensures FormatTimestamp(seconds) == Field(h) + ":" + Field(m) + ":" + Field(s)
  {
  }

  /** Worked renderings: under a minute, over a minute, over an hour, and 100 hours. */
  lemma FormatTimestampExamples()
    ensures FormatTimestamp(0) == "00:00:00"
    ensures FormatTimestamp(59) == "00:00:59"
    ensures FormatTimestamp(65) == "00:01:05"
    ensures FormatTimestamp(3661) == "01:01:01"
    ensures FormatTimestamp(360000) == "100:00:00"
  {
    ExampleFields();
    ExampleClocks();
    FormatFromClock(0, 0, 0, 0);
    FormatFromClock(59, 0, 0, 59);
    FormatFromClock(65, 0, 1, 5);
    FormatFromClock(3661, 1, 1, 1);
    FormatFromClock(360000, 100, 0, 0);
    assert "00" + ":" + "00" + ":" + "00" == "00:00:00";
    assert "00" + ":" + "00" + ":" + "59" == "00:00:59";
    assert "00" + ":" + "01" + ":" + "05" == "00:01:05";
    assert "01" + ":" + "01" + ":" + "01" == "01:01:01";
    assert "100" + ":" + "00" + ":" + "00" == "100:00:00";
  }
}
