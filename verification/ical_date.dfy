/** `parseIcalDate` of src/services/IcalService.js: the two iCalendar value
    shapes it recognises (the DATE-TIME shape `YYYYMMDDTHHMMSS[Z]` and the
    DATE shape `YYYYMMDD` of RFC 5545 sections 3.3.5 and 3.3.4) and the ISO
    strings it turns them into. */
module IcalDate {
  import opened Wrappers
  import opened Civil
  import opened JsString
  import opened IsoTime

  /** What a Date conversion throws: `toISOString` on an Invalid Date raises
      a RangeError, which aborts the whole feed parse. */
  datatype DateError = InvalidTimeValue

  /** `s[lo..hi]` is all ASCII digits (`\d`). */
  predicate DigitsAt(s: string, lo: nat, hi: nat)
    requires lo <= hi <= |s|
  {
    forall i :: lo <= i < hi ==> IsDigit(s[i])
  }

  /** `s` matches /^\d{8}T\d{6}Z?$/. Such a value never has the DATE
      shape, so the order of the two tests does not matter, and its first
      eight characters are a DATE value. */
  predicate IsStampShape(s: string): (r: bool)
    ensures r ==> 15 <= |s| && !IsDateShape(s) && IsDateShape(s[..8])
  {
    && (|s| == 15 || (|s| == 16 && s[15] == 'Z'))
    && DigitsAt(s, 0, 8) && s[8] == 'T' && DigitsAt(s, 9, 15)
  }

  /** `s` matches /^\d{8}$/: eight characters, all digits. */
  predicate IsDateShape(s: string): (r: bool)
    ensures r <==> |s| == 8 && AllDigits(s)
  {
    DigitsAtAll(s);
    |s| == 8 && DigitsAt(s, 0, 8)
  }

  /** Digits at every position is `AllDigits`. */
  lemma DigitsAtAll(s: string)
    ensures DigitsAt(s, 0, |s|) <==> AllDigits(s)
  {
    if AllDigits(s) {
      AllDigitsAt(s);
    }
    if DigitsAt(s, 0, |s|) {
      AllDigitsOfChars(s);
    }
  }

  /** The digits of `s[lo..hi]`, as a number. */
  function NumberAt(s: string, lo: nat, hi: nat): (n: nat)
    requires lo <= hi <= |s| && DigitsAt(s, lo, hi)
    ensures n < Pow10(hi - lo)
  {
    var part := s[lo..hi];
    assert forall i :: 0 <= i < |part| ==> part[i] == s[lo + i];
    AllDigitsOfChars(part);
    NatOf(part)
  }

  /** The capture groups of the DATE-TIME shape, as numbers. */
  function StampFields(s: string): (f: Fields)
    requires IsStampShape(s)
    ensures Writable(f) && f.ms == 0
  {
    Fields(NumberAt(s, 0, 4), NumberAt(s, 4, 6), NumberAt(s, 6, 8),
           NumberAt(s, 9, 11), NumberAt(s, 11, 13), NumberAt(s, 13, 15), 0)
  }

  /** The capture groups of the DATE shape, at midnight. */
  function DayFields(s: string): (f: Fields)
    requires IsDateShape(s)
    ensures Writable(f) && f.hour == 0 && f.minute == 0 && f.second == 0 && f.ms == 0
  {
    Fields(NumberAt(s, 0, 4), NumberAt(s, 4, 6), NumberAt(s, 6, 8), 0, 0, 0, 0)
  }

  /** `new Date("YYYY-MM-DDTHH:MM:SS")`: a string without an offset is local
      wall-clock time, so the time value is the fields' value less the local
      offset `offset` (in milliseconds, local minus UTC). None is an Invalid
      Date. */
  function LocalTimeValue(f: Fields, offset: int): (r: Option<int>)
    ensures r.Some? <==> FieldsInRange(f) && InTimeRange(TimeOf(f) - offset)
    ensures r.Some? ==> r.value + offset == TimeOf(f)
  {
    if FieldsInRange(f) && InTimeRange(TimeOf(f) - offset) then Some(TimeOf(f) - offset) else None
  }

  /** The DATE-TIME branch: the UTC ISO string of the digits read as local
      time, or the RangeError `toISOString` throws for an Invalid Date. The
      string reads back as that local time. */
  function StampText(value: string, offset: int): (r: Result<string, DateError>)
    requires IsStampShape(value)
    ensures r.Err? <==> LocalTimeValue(StampFields(value), offset).None?
    ensures r.Ok? ==> ParseIso(r.value) == LocalTimeValue(StampFields(value), offset)
  {
    var t := LocalTimeValue(StampFields(value), offset);
    if t.None? then Err(InvalidTimeValue) else Ok(ToIsoString(t.value))
  }

  /** The DATE branch: the digits copied unchecked into
      `YYYY-MM-DDT00:00:00Z`, which is the ISO text of the value's fields at
      midnight UTC without milliseconds. */
  function DayText(value: string): (r: string)
    requires IsDateShape(value)
    ensures r == IsoText(DayFields(value), false)
  {
    DateShapeText(value);
    value[..4] + ("-" + (value[4..6] + ("-" + (value[6..8] + "T00:00:00Z"))))
  }

  /** `parseIcalDate(value)` run where the local offset is `offset`:
      `null` (Ok(None)) exactly when the value has neither shape, an error
      exactly for a DATE-TIME value whose digits make an Invalid Date, and
      otherwise the string of the matching branch. */
  function ParseIcalDate(value: string, offset: int): (r: Result<Option<string>, DateError>)
    ensures (r.Ok? && r.value.None?) <==> !IsStampShape(value) && !IsDateShape(value)
    ensures r.Err? <==> IsStampShape(value) && LocalTimeValue(StampFields(value), offset).None?
    ensures IsStampShape(value) && r.Ok? ==>
              r.value.Some? && ParseIso(r.value.value) == LocalTimeValue(StampFields(value), offset)
    ensures IsDateShape(value) ==> r == Ok(Some(DayText(value)))
  {
    if IsStampShape(value) then
      var text :- StampText(value, offset);
      Ok(Some(text))
    else if IsDateShape(value) then Ok(Some(DayText(value)))
    else Ok(None)
  }

  /** The literal the DATE branch builds is the ISO text of its own digits at
      midnight, without milliseconds. */
  lemma DateShapeText(value: string)
    requires IsDateShape(value)
    ensures value[..4] + ("-" + (value[4..6] + ("-" + (value[6..8] + "T00:00:00Z"))))
            == IsoText(DayFields(value), false)
  {
    var f := DayFields(value);
    var date := value[..4] + ("-" + (value[4..6] + ("-" + value[6..8])));
    DayDateText(value);
    MidnightText(f);
    assert IsoText(f, false) == date + ("T" + "00:00:00Z");
    assert date + ("T" + "00:00:00Z")
           == value[..4] + ("-" + (value[4..6] + ("-" + (value[6..8] + "T00:00:00Z"))));
  }

  /** The date part of the DATE branch's text is the value's digits. */
  lemma DayDateText(value: string)
    requires IsDateShape(value)
    ensures DateText(DayFields(value)) == value[..4] + ("-" + (value[4..6] + ("-" + value[6..8])))
  {
    DayYearText(value);
    DayMonthText(value);
    DayDayText(value);
    DateTextOf(DayFields(value), value[..4], value[4..6], value[6..8]);
  }

  /** The year of a DATE value is written back as its first four digits. */
  lemma DayYearText(value: string)
    requires IsDateShape(value)
    ensures YearText(DayFields(value).year) == value[..4]
  {
    VerbatimDigits(value, 0, 4);
    assert value[0..4] == value[..4];
  }

  /** The month of a DATE value is written back as its fifth and sixth digits. */
  lemma DayMonthText(value: string)
    requires IsDateShape(value)
    ensures Digits(DayFields(value).month, 2) == value[4..6]
  {
    VerbatimDigits(value, 4, 6);
  }

  /** The day of a DATE value is written back as its last two digits. */
  lemma DayDayText(value: string)
    requires IsDateShape(value)
    ensures Digits(DayFields(value).day, 2) == value[6..8]
  {
    VerbatimDigits(value, 6, 8);
  }

  /** The date text is assembled from its three parts. */
  lemma DateTextOf(f: Fields, ys: string, ms: string, ds: string)
    requires Writable(f)
    requires YearText(f.year) == ys && Digits(f.month, 2) == ms && Digits(f.day, 2) == ds
    ensures DateText(f) == ys + ("-" + (ms + ("-" + ds)))
  {
  }

  /** Midnight without milliseconds is written `00:00:00Z`. */
  lemma MidnightText(f: Fields)
    requires Writable(f) && f.hour == 0 && f.minute == 0 && f.second == 0
    ensures TimeText(f, false) == "00:00:00Z"
  {
    assert Digits(0, 1) == "0";
    assert Digits(0, 2) == "00";
  }

  /** Digits read and written back at the same width are the same digits. */
  lemma VerbatimDigits(s: string, lo: nat, hi: nat)
    requires lo <= hi <= |s| && DigitsAt(s, lo, hi)
    ensures Digits(NumberAt(s, lo, hi), hi - lo) == s[lo..hi]
  {
    var part := s[lo..hi];
    assert forall i :: 0 <= i < |part| ==> part[i] == s[lo + i];
    AllDigitsOfChars(part);
    DigitsOfNatOf(part);
  }

  /** A trailing `Z` changes nothing: `20250805T160000Z` and
      `20250805T160000` are both read as local wall-clock time. */
  lemma TrailingZIgnored(s: string, offset: int)
    requires |s| == 15
    ensures ParseIcalDate(s + "Z", offset) == ParseIcalDate(s, offset)
  {
    var z := s + "Z";
    assert z[..15] == s;
    assert forall i :: 0 <= i < 15 ==> z[i] == s[i];
    if IsStampShape(s) {
      assert IsStampShape(z);
      forall lo: nat, hi: nat | lo <= hi <= 15
        ensures z[lo..hi] == s[lo..hi]
      {
      }
      assert StampFields(z) == StampFields(s);
    }
  }

  /** `new Date(...)` of the DATE branch's string: midnight UTC of the
      value's digits, or an Invalid Date when month or day is out of the
      ranges the Date Time String Format admits. */
  lemma DayTextReadsBack(value: string)
    requires IsDateShape(value)
    ensures var f := DayFields(value);
            ParseIso(DayText(value))
            == if FieldsInRange(f) then Some(DaysFromCivil(f.year, f.month, f.day) * MsPerDay) else None
  {
    var f := DayFields(value);
    assert DayText(value) == IsoText(f, false);
    ParseIsoText(f, false);
    if FieldsInRange(f) {
      assert TimeOf(f) == DaysFromCivil(f.year, f.month, f.day) * MsPerDay;
      FourDigitYearInRange(f, 0);
      assert InTimeRange(TimeOf(f));
    }
  }

  /** For a DATE value naming a real day, the UTC date of the time value it
      reads back as is the value's own digits, `YYYY-MM-DD`. */
  lemma DayTextDate(value: string)
    requires IsDateShape(value)
    requires ValidDate(Date(DayFields(value).year, DayFields(value).month, DayFields(value).day))
    ensures ParseIso(DayText(value)).Some?
    ensures DateText(UtcFields(ParseIso(DayText(value)).value))
            == value[..4] + ("-" + (value[4..6] + ("-" + value[6..8])))
  {
    var f := DayFields(value);
    DayTextReadsBack(value);
    var t := DaysFromCivil(f.year, f.month, f.day) * MsPerDay;
    CivilRoundTrip(Date(f.year, f.month, f.day));
    assert t / MsPerDay == DaysFromCivil(f.year, f.month, f.day);
    var g := UtcFields(t);
    assert g.year == f.year && g.month == f.month && g.day == f.day;
    VerbatimDigits(value, 0, 4);
    VerbatimDigits(value, 4, 6);
    VerbatimDigits(value, 6, 8);
  }
}
