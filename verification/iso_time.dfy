/** The two JavaScript Date conversions the feed parser leans on:
    `Date.prototype.toISOString`, and `new Date(string)` for strings in the
    Date Time String Format of ECMA-262 with a `Z` offset. Time values are
    integer milliseconds since 1970-01-01T00:00:00Z. */
module IsoTime {
  import opened Wrappers
  import opened Civil
  import opened JsString

  predicate IsDigit(c: char) {
    '0' <= c <= '9'
  }

  /** Every character of `s` is a decimal digit (checked from the end, the
      way NatOf reads). */
  predicate AllDigits(s: string) {
    |s| == 0 || (AllDigits(s[..|s| - 1]) && IsDigit(s[|s| - 1]))
  }

  lemma {:induction false} AllDigitsAt(s: string)
    requires AllDigits(s)
    ensures forall i :: 0 <= i < |s| ==> IsDigit(s[i])
    decreases |s|
  {
    if |s| > 0 {
      AllDigitsAt(s[..|s| - 1]);
      assert forall i :: 0 <= i < |s| - 1 ==> s[i] == s[..|s| - 1][i];
    }
  }

  lemma {:induction false} AllDigitsOfChars(s: string)
    requires forall i :: 0 <= i < |s| ==> IsDigit(s[i])
    ensures AllDigits(s)
    decreases |s|
  {
    if |s| > 0 {
      AllDigitsOfChars(s[..|s| - 1]);
    }
  }

  function Pow10(w: nat): nat {
    if w == 0 then 1 else 10 * Pow10(w - 1)
  }

  /** The value of a string of decimal digits. */
  function NatOf(s: string): (n: nat)
    requires AllDigits(s)
    ensures n < Pow10(|s|)
  {
    if |s| == 0 then 0 else NatOf(s[..|s| - 1]) * 10 + (s[|s| - 1] as int - '0' as int)
  }

  /** `n` written with exactly `w` decimal digits, zero-padded on the left;
      reading the digits back gives `n`. */
  function Digits(n: nat, w: nat): (r: string)
    requires n < Pow10(w)
    ensures |r| == w && AllDigits(r)
    ensures NatOf(r) == n
  {
    if w == 0 then ""
    else
      var r := Digits(n / 10, w - 1) + [('0' as int + n % 10) as char];
      assert r[..|r| - 1] == Digits(n / 10, w - 1);
      r
  }

  /** A digit string is the zero-padded rendering of its own value. */
  lemma {:induction false} DigitsOfNatOf(s: string)
    requires AllDigits(s)
    ensures Digits(NatOf(s), |s|) == s
    decreases |s|
  {
    if |s| > 0 {
      var init := s[..|s| - 1];
      DigitsOfNatOf(init);
      assert init + [s[|s| - 1]] == s;
    }
  }

  /** The broken-down fields of a time value, in UTC. */
  datatype Fields = Fields(year: int, month: int, day: int, hour: int, minute: int, second: int, ms: int)

  /** The field ranges the Date Time String Format admits: day 01-31 in any
      month, and hour 24 only as 24:00:00.000. */
  predicate FieldsInRange(f: Fields) {
    && 1 <= f.month <= 12 && 1 <= f.day <= 31
    && 0 <= f.minute <= 59 && 0 <= f.second <= 59 && 0 <= f.ms <= 999
    && (0 <= f.hour <= 23 || (f.hour == 24 && f.minute == 0 && f.second == 0 && f.ms == 0))
  }

  /** MakeDate(MakeDay(...), MakeTime(...)) for fields in range. */
  function TimeOf(f: Fields): int
    requires 1 <= f.month <= 12
  {
    DaysFromCivil(f.year, f.month, f.day) * MsPerDay
    + f.hour * 3_600_000 + f.minute * 60_000 + f.second * 1000 + f.ms
  }

  /** TimeClip: time values beyond 8.64e15 ms are not dates. */
  predicate InTimeRange(t: int) {
    -MaxTime <= t <= MaxTime
  }

  /** Fields with a four-digit year always make a valid time value, even
      shifted by up to a day. */
  lemma FourDigitYearInRange(f: Fields, shift: int)
    requires 0 <= f.year <= 9999 && FieldsInRange(f)
    requires -MsPerDay <= shift <= MsPerDay
    ensures InTimeRange(TimeOf(f) + shift)
  {
    var y := f.year;
    assert -1000 <= (y - 1969) / 4 <= 2100;
    assert -100 <= (y - 1901) / 100 <= 100;
    assert -10 <= (y - 1601) / 400 <= 30;
    assert -800_000 <= DayFromYear(y) <= 3_000_000;
  }

  /** A year within the range of the day numbers of valid time values. */
  lemma YearBound(y: int, k: int)
    requires 0 <= k < 366
    requires -100_000_000 <= DayFromYear(y) + k <= 100_000_000
    ensures -999_999 <= y <= 999_999
  {
  }

  /** The UTC fields of a time value: a real date and a time of day in
      range, which together give the time value back. */
  function UtcFields(t: int): (f: Fields)
    requires InTimeRange(t)
    ensures ValidDate(Date(f.year, f.month, f.day)) && FieldsInRange(f) && f.hour <= 23
    ensures -999_999 <= f.year <= 999_999
    ensures TimeOf(f) == t
  {
    var n := t / MsPerDay;
    var tod := t % MsPerDay;
    var date := CivilFromDays(n);
    MonthInYear(date);
    YearBound(date.year, DaysBeforeMonth(date.year, date.month) + date.day - 1);
    var secs := tod / 1000;
    var mins := secs / 60;
    Fields(date.year, date.month, date.day, mins / 60, mins % 60, secs % 60, tod % 1000)
  }

  /** Fields `IsoText` can write: the year fits six digits, the others two
      (three for milliseconds). */
  predicate Writable(f: Fields) {
    && -999_999 <= f.year <= 999_999
    && 0 <= f.month < 100 && 0 <= f.day < 100 && 0 <= f.hour < 100
    && 0 <= f.minute < 100 && 0 <= f.second < 100 && 0 <= f.ms < 1000
  }

  /** A year as toISOString writes it: four digits for 0..9999, otherwise a
      sign and six digits. */
  function YearText(y: int): (r: string)
    requires -999_999 <= y <= 999_999
    ensures 'T' !in r
  {
    var ds := Digits(if 0 <= y <= 9999 || y > 0 then y else -y, if 0 <= y <= 9999 then 4 else 6);
    AllDigitsAt(ds);
    if 0 <= y <= 9999 then ds
    else if y < 0 then "-" + ds
    else "+" + ds
  }

  /** `YYYY-MM-DD`, the part of an ISO string before the `T`. */
  function DateText(f: Fields): (r: string)
    requires Writable(f)
    ensures 'T' !in r
  {
    YearText(f.year) + ("-" + (Digits(f.month, 2) + ("-" + Digits(f.day, 2))))
  }

  /** `YYYY-MM-DDTHH:mm:ss.sssZ`, or without `.sss` when `withMs` is false. */
  function IsoText(f: Fields, withMs: bool): string
    requires Writable(f)
  {
    DateText(f) + ("T" + TimeText(f, withMs))
  }

  /** `new Date(t).toISOString()`: the UTC rendering of `t`, which `new Date`
      reads back as `t`, and whose part before the `T` is its UTC date. */
  function ToIsoString(t: int): (r: string)
    requires InTimeRange(t)
    ensures ParseIso(r) == Some(t)
    ensures Split(r, 'T')[0] == DateText(UtcFields(t))
  {
    var f := UtcFields(t);
    ParseIsoText(f, true);
    IsoDatePart(f, true);
    IsoText(f, true)
  }

  // ---------------------------------------------------------------------
  // new Date(string)

  /** Reads `w` digits off the front of `s`. */
  function ReadDigits(s: string, w: nat): Option<(nat, string)> {
    if |s| >= w && AllDigits(s[..w]) then Some((NatOf(s[..w]), s[w..])) else None
  }

  /** Reads the character `c` off the front of `s`. */
  function ReadChar(s: string, c: char): Option<string> {
    if |s| > 0 && s[0] == c then Some(s[1..]) else None
  }

  /** Reads a four-digit year, or a sign and six digits; `-000000` is not a
      year. */
  function ReadYear(s: string): Option<(int, string)> {
    if |s| > 0 && (s[0] == '+' || s[0] == '-') then
      var r :- ReadDigits(s[1..], 6);
      var n: int := r.0;
      var y := if s[0] == '-' then -n else n;
      if s[0] == '-' && r.0 == 0 then None else Some((y, r.1))
    else ReadDigits(s, 4)
  }

  /** Reads an optional `.sss`; absent milliseconds are zero. */
  function ReadFraction(s: string): Option<(nat, string)> {
    if |s| > 0 && s[0] == '.' then ReadDigits(s[1..], 3) else Some((0, s))
  }

  /** `new Date(s)` for `s` of the form `YYYY-MM-DDTHH:mm:ss[.sss]Z` (a year
      may also be a sign and six digits): the time value, or None for an
      Invalid Date. */
  function ParseIso(s: string): (r: Option<int>)
    ensures r.Some? ==> InTimeRange(r.value)
  {
    var yr :- ReadYear(s);
    ParseIsoDate(yr.0, yr.1)
  }

  /** The `-MM-DDT` part, after the year. */
  function ParseIsoDate(year: int, s: string): (r: Option<int>)
    ensures r.Some? ==> InTimeRange(r.value)
  {
    var s1 :- ReadChar(s, '-');
    var mo :- ReadDigits(s1, 2);
    var s2 :- ReadChar(mo.1, '-');
    var d :- ReadDigits(s2, 2);
    var s3 :- ReadChar(d.1, 'T');
    ParseIsoTime(year, mo.0, d.0, s3)
  }

  /** The `HH:mm:ss[.sss]Z` part, after the `T`. */
  function ParseIsoTime(year: int, month: int, day: int, s: string): (r: Option<int>)
    ensures r.Some? ==> InTimeRange(r.value)
  {
    var h :- ReadDigits(s, 2);
    var s1 :- ReadChar(h.1, ':');
    var mi :- ReadDigits(s1, 2);
    var s2 :- ReadChar(mi.1, ':');
    var sec :- ReadDigits(s2, 2);
    var ms :- ReadFraction(sec.1);
    var s3 :- ReadChar(ms.1, 'Z');
    var f := Fields(year, month, day, h.0, mi.0, sec.0, ms.0);
    if s3 != [] || !FieldsInRange(f) || !InTimeRange(TimeOf(f)) then None
    else Some(TimeOf(f))
  }

  lemma ReadDigitsOf(n: nat, w: nat, rest: string)
    requires n < Pow10(w)
    ensures ReadDigits(Digits(n, w) + rest, w) == Some((n, rest))
  {
    var s := Digits(n, w) + rest;
    assert s[..w] == Digits(n, w);
  }

  lemma ReadCharOf(c: char, rest: string)
    ensures ReadChar([c] + rest, c) == Some(rest)
  {
  }

  lemma ReadYearOf(y: int, rest: string)
    requires -999_999 <= y <= 999_999
    ensures ReadYear(YearText(y) + rest) == Some((y, rest))
  {
    if 0 <= y <= 9999 {
      assert YearText(y) == Digits(y, 4);
      ReadDigitsOf(y, 4, rest);
      assert (Digits(y, 4) + rest)[0] == Digits(y, 4)[0];
      AllDigitsAt(Digits(y, 4));
    } else {
      var sign := if y < 0 then '-' else '+';
      var n := if y < 0 then -y else y;
      assert YearText(y) == [sign] + Digits(n, 6);
      ReadSignedOf(sign, n, rest);
    }
  }

  /** A sign and six digits read back as the signed number. */
  lemma ReadSignedOf(sign: char, n: int, rest: string)
    requires sign == '+' || sign == '-'
    requires 0 <= n < Pow10(6) && (sign == '-' ==> n > 0)
    ensures ReadYear([sign] + Digits(n, 6) + rest) == Some((if sign == '-' then -n else n, rest))
  {
    var ds := Digits(n, 6);
    var s := [sign] + ds + rest;
    assert s[1..] == ds + rest;
    ReadDigitsOf(n, 6, rest);
  }

  /** The text after the `T` of an ISO text. */
  function TimeText(f: Fields, withMs: bool): string
    requires Writable(f)
  {
    Digits(f.hour, 2) + (":" + (Digits(f.minute, 2) + (":" + (Digits(f.second, 2)
      + ((if withMs then "." + Digits(f.ms, 3) else "") + "Z")))))
  }

  lemma ParseTimeText(f: Fields, withMs: bool)
    requires Writable(f)
    requires !withMs ==> f.ms == 0
    ensures ParseIsoTime(f.year, f.month, f.day, TimeText(f, withMs))
            == if FieldsInRange(f) && InTimeRange(TimeOf(f)) then Some(TimeOf(f)) else None
  {
    var zs := "Z";
    var frac := (if withMs then "." + Digits(f.ms, 3) else "") + zs;
    var t5 := Digits(f.second, 2) + frac;
    var t4 := ":" + t5;
    var t3 := Digits(f.minute, 2) + t4;
    var t2 := ":" + t3;
    assert TimeText(f, withMs) == Digits(f.hour, 2) + t2;
    ReadDigitsOf(f.hour, 2, t2);
    ReadCharOf(':', t3);
    ReadDigitsOf(f.minute, 2, t4);
    ReadCharOf(':', t5);
    ReadDigitsOf(f.second, 2, frac);
    if withMs {
      ReadDigitsOf(f.ms, 3, zs);
      assert frac[1..] == Digits(f.ms, 3) + zs;
    } else {
      assert frac == zs;
    }
    assert ReadFraction(frac) == Some((f.ms, zs));
    var g := Fields(f.year, f.month, f.day, f.hour, f.minute, f.second, f.ms);
    assert g == f;
  }

  /** The text after the year of an ISO text. */
  function AfterYearText(f: Fields, withMs: bool): string
    requires Writable(f)
  {
    "-" + (Digits(f.month, 2) + ("-" + (Digits(f.day, 2) + ("T" + TimeText(f, withMs)))))
  }

  lemma ParseAfterYearText(f: Fields, withMs: bool)
    requires Writable(f)
    requires !withMs ==> f.ms == 0
    ensures ParseIsoDate(f.year, AfterYearText(f, withMs))
            == if FieldsInRange(f) && InTimeRange(TimeOf(f)) then Some(TimeOf(f)) else None
  {
    var t1 := TimeText(f, withMs);
    var t0 := "T" + t1;
    var d2 := Digits(f.day, 2) + t0;
    var d1 := "-" + d2;
    var m2 := Digits(f.month, 2) + d1;
    ReadCharOf('-', m2);
    ReadDigitsOf(f.month, 2, d1);
    ReadCharOf('-', d2);
    ReadDigitsOf(f.day, 2, t0);
    ReadCharOf('T', t1);
    ParseTimeText(f, withMs);
  }

  /** Reading back an ISO text gives its time value when its fields are in
      range and the value is a valid time, and an Invalid Date otherwise. */
  lemma ParseIsoText(f: Fields, withMs: bool)
    requires Writable(f)
    requires !withMs ==> f.ms == 0
    ensures ParseIso(IsoText(f, withMs))
            == if FieldsInRange(f) && InTimeRange(TimeOf(f)) then Some(TimeOf(f)) else None
  {
    assert IsoText(f, withMs) == YearText(f.year) + AfterYearText(f, withMs);
    ReadYearOf(f.year, AfterYearText(f, withMs));
    ParseAfterYearText(f, withMs);
  }

  /** The part of an ISO text before its `T` is its date. */
  lemma IsoDatePart(f: Fields, withMs: bool)
    requires Writable(f)
    ensures Split(IsoText(f, withMs), 'T')[0] == DateText(f)
  {
    SplitFirst(DateText(f), 'T', TimeText(f, withMs));
  }
}
