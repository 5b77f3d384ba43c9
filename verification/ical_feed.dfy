/** `getIcalEvents` of src/services/IcalService.js: the line-by-line reading
    of an iCalendar text (RFC 5545), one VEVENT block at a time, the filter
    that keeps events starting today or later, and the stable sort by start
    time cut to the first ten. The download is left out: the model starts
    from the text the response delivered. */
module IcalFeed {
  import opened Wrappers
  import opened Civil
  import opened JsString
  import opened IsoTime
  import opened IcalDate
  import opened StableSort

  /* ---------------- one content line ---------------- */

  /** Position of the first line terminator of `s`, or `|s|` when it has
      none: how far `.*` reaches. */
  function LineEnd(s: string): (n: nat)
    ensures n <= |s|
    ensures forall i :: 0 <= i < n ==> !IsLineTerminator(s[i])
    ensures n == |s| || IsLineTerminator(s[n])
  {
    if |s| == 0 || IsLineTerminator(s[0]) then 0 else 1 + LineEnd(s[1..])
  }

  /** `keyPart` and `value` are the two groups that /^([^:]+):(.*)/ captures
      in `line`: a non-empty colon-free key part, a colon, and the value up to
      the end of the line or its first line terminator. */
  predicate IsMatch(line: string, keyPart: string, value: string) {
    && |keyPart| > 0 && ':' !in keyPart
    && (forall i :: 0 <= i < |value| ==> !IsLineTerminator(value[i]))
    && |keyPart| + 1 + |value| <= |line|
    && line[..|keyPart| + 1 + |value|] == keyPart + ([':'] + value)
    && (|keyPart| + 1 + |value| == |line| || IsLineTerminator(line[|keyPart| + 1 + |value|]))
  }

  datatype PropertyLine = PropertyLine(keyPart: string, value: string)

  /** `line.match(/^([^:]+):(.*)/)`: it matches exactly when the line has a
      colon that is not its first character, and then yields the groups. */
  function MatchProperty(line: string): (r: Option<PropertyLine>)
    ensures r.Some? <==> |line| > 0 && line[0] != ':' && ':' in line
    ensures r.Some? ==> IsMatch(line, r.value.keyPart, r.value.value)
  {
    var i := IndexOf(line, ':');
    if i < 1 then None
    else
      var rest := line[i + 1..];
      var n := LineEnd(rest);
      assert line[..i + 1 + n] == line[..i] + ([':'] + rest[..n]);
      Some(PropertyLine(line[..i], rest[..n]))
  }

  /** The line terminator that ends a value is the first one after it. */
  lemma {:induction false} LineEndOf(v: string, rest: string)
    requires forall i :: 0 <= i < |v| ==> !IsLineTerminator(v[i])
    requires |rest| == 0 || IsLineTerminator(rest[0])
    ensures LineEnd(v + rest) == |v|
    decreases |v|
  {
    if |v| > 0 {
      assert (v + rest)[1..] == v[1..] + rest;
      LineEndOf(v[1..], rest);
    } else {
      assert v + rest == rest;
    }
  }

  /** The regular expression has only one way to match: whatever groups fit
      its shape are the ones `MatchProperty` returns. */
  lemma MatchUnique(line: string, keyPart: string, value: string)
    requires IsMatch(line, keyPart, value)
    ensures MatchProperty(line) == Some(PropertyLine(keyPart, value))
  {
    var n := |keyPart|;
    var m := n + 1 + |value|;
    var tail := line[m..];
    assert line == keyPart + [':'] + (value + tail) by {
      assert line == line[..m] + tail;
    }
    IndexOfFirst(keyPart, ':', value + tail);
    assert IndexOf(line, ':') == n;
    var rest := line[n + 1..];
    assert rest == value + tail;
    LineEndOf(value, tail);
    assert LineEnd(rest) == |value|;
    assert rest[..|value|] == value;
    assert line[..n] == keyPart;
  }

  /** The iCalendar properties the reader keeps; every other name is
      ignored. */
  datatype Property = Summary | Uid | Location | Description | DtStart | DtEnd | Ignored

  predicate IsDateProperty(q: Property) {
    q == DtStart || q == DtEnd
  }

  /** The property a property name denotes. */
  function Named(name: string): Property {
    if name == "SUMMARY" then Summary
    else if name == "UID" then Uid
    else if name == "LOCATION" then Location
    else if name == "DESCRIPTION" then Description
    else if name == "DTSTART" then DtStart
    else if name == "DTEND" then DtEnd
    else Ignored
  }

  /** The property a key part names: its text before the first `;`, so that
      parameters such as `DTSTART;VALUE=DATE` are set aside. */
  function PropertyOf(keyPart: string): Property {
    Named(Split(keyPart, ';')[0])
  }

  /** Parameters after the name change nothing. */
  lemma ParametersIgnored(name: string, params: string)
    requires ';' !in name
    ensures PropertyOf(name + (";" + params)) == PropertyOf(name)
  {
    SplitFirst(name, ';', params);
    assert IndexOf(name, ';') == -1;
    assert Split(name, ';')[0] == name;
  }

  /** The property a trimmed line sets, `Ignored` when it does not match. */
  function LineProperty(line: string): Property {
    match MatchProperty(line)
    case None => Ignored
    case Some(p) => PropertyOf(p.keyPart)
  }

  /** The value a trimmed line carries, empty when it does not match. */
  function LineValue(line: string): string {
    match MatchProperty(line)
    case None => ""
    case Some(p) => p.value
  }

  /* ---------------- the event being read ---------------- */

  /** `currentEvent`: the properties seen so far in the open block; a field
      that was never set or was set to `null` is `None`. */
  datatype Candidate = Candidate(
    summary: Option<string>, uid: Option<string>, location: Option<string>,
    description: Option<string>, start: Option<string>, end: Option<string>)

  /** `{}`, the fresh object `BEGIN:VEVENT` opens. */
  const NewCandidate := Candidate(None, None, None, None, None, None)

  /** The field of a candidate that a property sets. */
  function Get(c: Candidate, q: Property): Option<string> {
    match q
    case Summary => c.summary
    case Uid => c.uid
    case Location => c.location
    case Description => c.description
    case DtStart => c.start
    case DtEnd => c.end
    case Ignored => None
  }

  /** `c` with the field of `q` replaced by `v`. */
  function Set(c: Candidate, q: Property, v: Option<string>): (r: Candidate)
    ensures q != Ignored ==> Get(r, q) == v
    ensures forall q' :: q' != q ==> Get(r, q') == Get(c, q')
  {
    match q
    case Summary => c.(summary := v)
    case Uid => c.(uid := v)
    case Location => c.(location := v)
    case Description => c.(description := v)
    case DtStart => c.(start := v)
    case DtEnd => c.(end := v)
    case Ignored => c
  }

  /** A trimmed line that names DTSTART or DTEND with a DATE-TIME value
      `new Date` rejects: `toISOString` throws and the whole read fails. */
  predicate BadLine(line: string, offset: int) {
    IsDateProperty(LineProperty(line)) && ParseIcalDate(LineValue(line), offset).Err?
  }

  /** The `switch (key)` of the reader: a recognised property overwrites its
      field, a date goes through `parseIcalDate` first, anything else leaves
      the candidate as it was. */
  function Apply(c: Candidate, q: Property, value: string, offset: int): (r: Result<Candidate, DateError>)
    ensures r.Err? <==> IsDateProperty(q) && ParseIcalDate(value, offset).Err?
    ensures r.Ok? ==> r.value == Set(c, q, Get(r.value, q))
    ensures r.Ok? && q != Ignored && !IsDateProperty(q) ==> Get(r.value, q) == Some(value)
    ensures r.Ok? && IsDateProperty(q) ==> ParseIcalDate(value, offset) == Ok(Get(r.value, q))
  {
    match q
    case Summary => Ok(c.(summary := Some(value)))
    case Uid => Ok(c.(uid := Some(value)))
    case Location => Ok(c.(location := Some(value)))
    case Description => Ok(c.(description := Some(value)))
    case DtStart =>
      var d :- ParseIcalDate(value, offset);
      Ok(c.(start := d))
    case DtEnd =>
      var d :- ParseIcalDate(value, offset);
      Ok(c.(end := d))
    case Ignored => Ok(c)
  }

  /** One trimmed property line applied to the open candidate; a line the
      pattern does not match changes nothing. */
  function ApplyProperty(c: Candidate, line: string, offset: int): (r: Result<Candidate, DateError>)
    ensures r.Err? <==> BadLine(line, offset)
    ensures MatchProperty(line).None? ==> r == Ok(c)
  {
    Apply(c, LineProperty(line), LineValue(line), offset)
  }

  /** A raw line of the text, trimmed as the reader does, is bad. */
  predicate BadDate(raw: string, offset: int) {
    BadLine(Trim(raw), offset)
  }

  /** Some line of `lines` carries a bad date. */
  predicate AnyBad(lines: seq<string>, offset: int)
    decreases |lines|
  {
    |lines| > 0 && (BadDate(lines[|lines| - 1], offset) || AnyBad(lines[..|lines| - 1], offset))
  }

  /** `AnyBad` is "some line is bad". */
  lemma {:induction false} AnyBadAt(lines: seq<string>, offset: int)
    ensures AnyBad(lines, offset) <==> exists i :: 0 <= i < |lines| && BadDate(lines[i], offset)
  {
    var bad := (l: string) => BadDate(l, offset);
    AnyBadIsAny(lines, offset);
    AnyAt(lines, bad);
    assert forall i :: 0 <= i < |lines| ==> bad(lines[i]) == BadDate(lines[i], offset);
  }

  lemma {:induction false} AnyBadIsAny(lines: seq<string>, offset: int)
    ensures AnyBad(lines, offset) == Any(lines, (l: string) => BadDate(l, offset))
    decreases |lines|
  {
    if |lines| > 0 {
      AnyBadIsAny(lines[..|lines| - 1], offset);
    }
  }

  /** Some element of `s` satisfies `p`, looking from the end. */
  predicate Any<T>(s: seq<T>, p: T -> bool)
    decreases |s|
  {
    |s| > 0 && (p(s[|s| - 1]) || Any(s[..|s| - 1], p))
  }

  lemma {:induction false} AnyAt<T>(s: seq<T>, p: T -> bool)
    ensures Any(s, p) <==> exists i :: 0 <= i < |s| && p(s[i])
    decreases |s|
  {
    if |s| > 0 {
      var init := s[..|s| - 1];
      AnyAt(init, p);
      if Any(init, p) {
        var i :| 0 <= i < |init| && p(init[i]);
        assert s[i] == init[i];
      }
      if exists i :: 0 <= i < |s| && p(s[i]) {
        var i :| 0 <= i < |s| && p(s[i]);
        if i < |init| {
          assert init[i] == s[i];
        }
      }
    }
  }

  /** The properties of a run of lines applied in order; it fails exactly
      when one of the lines carries a bad date. */
  function Accumulate(c: Candidate, lines: seq<string>, offset: int): (r: Result<Candidate, DateError>)
    ensures r.Err? <==> AnyBad(lines, offset)
    decreases |lines|
  {
    if |lines| == 0 then Ok(c)
    else
      var c' :- Accumulate(c, lines[..|lines| - 1], offset);
      ApplyProperty(c', Trim(lines[|lines| - 1]), offset)
  }

  /** The value of the last line among `lines` that sets `q`, if any: an
      independent statement of "the last occurrence wins". */
  function LastValue(lines: seq<string>, q: Property): Option<string>
    decreases |lines|
  {
    if |lines| == 0 then None
    else if LineProperty(Trim(lines[|lines| - 1])) == q then Some(LineValue(Trim(lines[|lines| - 1])))
    else LastValue(lines[..|lines| - 1], q)
  }

  /** After a block's lines, each field holds what the last line naming it
      set (converted by `parseIcalDate` for dates), or what it held before
      when no line names it. */
  lemma {:induction false} AccumulateLastWins(c: Candidate, lines: seq<string>, offset: int, q: Property)
    requires q != Ignored
    requires Accumulate(c, lines, offset).Ok?
    ensures var got := Get(Accumulate(c, lines, offset).value, q);
            match LastValue(lines, q)
            case None => got == Get(c, q)
            case Some(v) => if IsDateProperty(q) then ParseIcalDate(v, offset) == Ok(got) else got == Some(v)
    decreases |lines|
  {
    if |lines| > 0 {
      var init := lines[..|lines| - 1];
      var last := Trim(lines[|lines| - 1]);
      AccumulateLastWins(c, init, offset, q);
      var c' := Accumulate(c, init, offset).value;
      var r := Apply(c', LineProperty(last), LineValue(last), offset);
      assert Accumulate(c, lines, offset) == r;
      if LineProperty(last) != q {
        assert Get(r.value, q) == Get(c', q);
        assert LastValue(lines, q) == LastValue(init, q);
      }
    }
  }

  /* ---------------- closing a block ---------------- */

  /** What the reader cannot see for itself: the current time `now` (one
      reading, in milliseconds since the epoch), the local time zone as a
      fixed offset in milliseconds (local = UTC + offset), and the successive
      `Math.random().toString()` strings. */
  datatype Env = Env(now: int, offset: int, fallbackId: nat -> string)

  /** The local day number of a time value. */
  function LocalDay(t: int, offset: int): int {
    (t + offset) / MsPerDay
  }

  /** The local calendar date of a time value: what `toDateString` shows. */
  function LocalDate(t: int, offset: int): Date {
    CivilFromDays(LocalDay(t, offset))
  }

  /** `a.toDateString() === b.toDateString()`: the same local date, which is
      the same local day number. */
  predicate SameLocalDate(a: int, b: int, offset: int): (r: bool)
    ensures r <==> LocalDay(a, offset) == LocalDay(b, offset)
  {
    LocalDate(a, offset) == LocalDate(b, offset)
  }

  /** `isFutureEvent || isToday` for an event starting at `t`: exactly the
      events starting at or after local midnight of the current day. */
  predicate Retained(t: int, env: Env): (r: bool)
    ensures r <==> t >= LocalMidnight(env.now, env.offset)
  {
    RetainedFromMidnight(t, env);
    t > env.now || SameLocalDate(t, env.now, env.offset)
  }

  /** Local midnight at the start of the day `now` falls in. */
  function LocalMidnight(now: int, offset: int): (m: int)
    ensures m <= now < m + MsPerDay
    ensures LocalDay(m, offset) == LocalDay(now, offset)
  {
    LocalDay(now, offset) * MsPerDay - offset
  }

  /** The filter keeps exactly the events that start at or after local
      midnight of the current day. */
  lemma RetainedFromMidnight(t: int, env: Env)
    ensures t > env.now || SameLocalDate(t, env.now, env.offset) <==> t >= LocalMidnight(env.now, env.offset)
  {
    var m := LocalMidnight(env.now, env.offset);
    var d := LocalDay(env.now, env.offset);
    if t >= m + MsPerDay {
      assert LocalDay(t, env.offset) >= d + 1;
    } else if t >= m {
      assert LocalDay(t, env.offset) == d;
    } else {
      assert LocalDay(t, env.offset) < d;
    }
  }

  /** `{ dateTime, date }` of an event's start or end. */
  datatype EventTime = EventTime(dateTime: string, date: string)

  /** The object pushed for a retained event. */
  datatype IcalEvent = IcalEvent(
    id: string, summary: string, start: EventTime, end: EventTime,
    location: Option<string>, description: Option<string>, source: string)

  /** A retained event with the time value its start reads back as. */
  datatype Kept = Kept(startMs: int, event: IcalEvent)

  /** `new Date(t).toISOString().split('T')[0]`. */
  function IsoDate(t: int): (r: string)
    requires InTimeRange(t)
    ensures r == DateText(UtcFields(t))
  {
    Split(ToIsoString(t), 'T')[0]
  }

  /** What every retained event satisfies: its start reads back as the
      recorded time value, which passes the filter; both dates are the UTC
      dates of their time values; it has a title and the `ical` source. */
  predicate Good(k: Kept, env: Env) {
    && ParseIso(k.event.start.dateTime) == Some(k.startMs)
    && InTimeRange(k.startMs)
    && Retained(k.startMs, env)
    && k.event.start.date == DateText(UtcFields(k.startMs))
    && ParseIso(k.event.end.dateTime).Some?
    && k.event.end.date == DateText(UtcFields(ParseIso(k.event.end.dateTime).value))
    && k.event.summary != ""
    && k.event.source == "ical"
  }

  /** `END:VEVENT` on an open candidate: nothing when start or end is
      missing, or the start is an Invalid Date or before today; otherwise the
      event object, or a thrown RangeError when its end is an Invalid Date.
      `drawn` counts the `Math.random` strings used so far. */
  function Close(c: Candidate, env: Env, drawn: nat): (r: Result<Option<Kept>, DateError>)
    ensures r.Err? <==>
              && Truthy(c.start) && Truthy(c.end) && ParseIso(c.start.value).Some?
              && Retained(ParseIso(c.start.value).value, env) && ParseIso(c.end.value).None?
    ensures (r.Ok? && r.value.Some?) <==>
              && Truthy(c.start) && Truthy(c.end) && ParseIso(c.start.value).Some?
              && Retained(ParseIso(c.start.value).value, env) && ParseIso(c.end.value).Some?
    ensures r.Ok? && r.value.Some? ==>
              var e := r.value.value.event;
              && Good(r.value.value, env)
              && e.id == OrElse(c.uid, env.fallbackId(drawn))
              && e.summary == OrElse(c.summary, "No Title")
              && e.start.dateTime == c.start.value && e.end.dateTime == c.end.value
              && e.location == c.location && e.description == c.description
  {
    if !Truthy(c.start) || !Truthy(c.end) then Ok(None)
    else match ParseIso(c.start.value)
      case None => Ok(None)
      case Some(t) =>
        if !Retained(t, env) then Ok(None)
        else match ParseIso(c.end.value)
          case None => Err(InvalidTimeValue)
          case Some(u) =>
            Ok(Some(Kept(t, IcalEvent(
              OrElse(c.uid, env.fallbackId(drawn)),
              OrElse(c.summary, "No Title"),
              EventTime(c.start.value, IsoDate(t)),
              EventTime(c.end.value, IsoDate(u)),
              c.location, c.description, "ical"))))
  }

  /* ---------------- the line state machine ---------------- */

  /** The reader's state: the open candidate (`currentEvent`, `None` for
      `null`), the events pushed so far, and how many random ids were used. */
  datatype Scan = Scan(open: Option<Candidate>, kept: seq<Kept>, drawn: nat)

  const Initial := Scan(None, [], 0)

  /** Every event from position `from` on is good. */
  predicate GoodFrom(kept: seq<Kept>, from: nat, env: Env) {
    forall i :: from <= i < |kept| ==> Good(kept[i], env)
  }

  /** Close the open candidate `c`: push the event when it is kept (drawing a
      random id when its uid is falsy) and clear the candidate. */
  function Emit(kept: seq<Kept>, drawn: nat, c: Candidate, env: Env): (r: Result<Scan, DateError>)
    ensures r.Ok? ==> r.value.open.None? && kept <= r.value.kept && |r.value.kept| <= |kept| + 1
    ensures r.Ok? ==> GoodFrom(r.value.kept, |kept|, env)
    ensures r.Err? <==> Close(c, env, drawn).Err?
    ensures r.Ok? ==>
              var k := Close(c, env, drawn).value;
              && r.value.kept == kept + (if k.Some? then [k.value] else [])
              && r.value.drawn == (if k.Some? && !Truthy(c.uid) then drawn + 1 else drawn)
  {
    var k :- Close(c, env, drawn);
    match k
    case None => Ok(Scan(None, kept, drawn))
    case Some(e) =>
      GoodFromSnoc(kept, e, env);
      Ok(Scan(None, kept + [e], if Truthy(c.uid) then drawn else drawn + 1))
  }

  lemma GoodFromSnoc(kept: seq<Kept>, e: Kept, env: Env)
    requires Good(e, env)
    ensures GoodFrom(kept + [e], |kept|, env)
  {
    assert (kept + [e])[|kept|] == e;
  }

  /** One line of the text: `BEGIN:VEVENT` always opens a fresh candidate
      (dropping any open one); `END:VEVENT` closes an open candidate; any
      other line updates an open candidate and is ignored otherwise. */
  function Step(s: Scan, raw: string, env: Env): (r: Result<Scan, DateError>)
    ensures r.Ok? ==> s.kept <= r.value.kept && |r.value.kept| <= |s.kept| + 1
    ensures r.Ok? ==> GoodFrom(r.value.kept, |s.kept|, env)
    ensures r.Ok? ==> (r.value.open.Some? <==>
                         Trim(raw) == "BEGIN:VEVENT" || (s.open.Some? && Trim(raw) != "END:VEVENT"))
  {
    var line := Trim(raw);
    if line == "BEGIN:VEVENT" then Ok(s.(open := Some(NewCandidate)))
    else if line == "END:VEVENT" && s.open.Some? then Emit(s.kept, s.drawn, s.open.value, env)
    else if s.open.Some? then
      var c :- ApplyProperty(s.open.value, line, env.offset);
      Ok(s.(open := Some(c)))
    else Ok(s)
  }

  /** The `for` loop over `lines`. Events are only ever appended, and every
      appended one is good. */
  function Run(s: Scan, lines: seq<string>, env: Env): (r: Result<Scan, DateError>)
    ensures r.Ok? ==> s.kept <= r.value.kept && |r.value.kept| <= |s.kept| + |lines|
    ensures r.Ok? ==> GoodFrom(r.value.kept, |s.kept|, env)
    decreases |lines|
  {
    if |lines| == 0 then Ok(s)
    else
      var s' :- Run(s, lines[..|lines| - 1], env);
      Step(s', lines[|lines| - 1], env)
  }

  /** Reading two runs of lines one after the other. */
  lemma {:induction false} RunAppend(s: Scan, a: seq<string>, b: seq<string>, env: Env)
    ensures Run(s, a + b, env) == (var s' :- Run(s, a, env); Run(s', b, env))
    decreases |b|
  {
    if |b| == 0 {
      assert a + b == a;
    } else {
      var b' := b[..|b| - 1];
      assert (a + b)[..|a + b| - 1] == a + b';
      assert (a + b)[|a + b| - 1] == b[|b| - 1];
      RunAppend(s, a, b', env);
    }
  }

  /** No line of `lines` opens or closes a block. */
  predicate Inner(lines: seq<string>) {
    forall i :: 0 <= i < |lines| ==> Trim(lines[i]) != "BEGIN:VEVENT" && Trim(lines[i]) != "END:VEVENT"
  }

  /** Inside an open block, the lines only accumulate properties. */
  lemma {:induction false} BodyAccumulates(s: Scan, lines: seq<string>, env: Env)
    requires s.open.Some? && Inner(lines)
    ensures Run(s, lines, env) == (var c :- Accumulate(s.open.value, lines, env.offset); Ok(s.(open := Some(c))))
    decreases |lines|
  {
    if |lines| > 0 {
      BodyAccumulates(s, lines[..|lines| - 1], env);
    }
  }

  /** A whole block, `BEGIN:VEVENT`, its property lines and `END:VEVENT`,
      accumulates its properties into a fresh candidate and closes it,
      whatever block was open before. */
  lemma Block(s: Scan, begin: string, body: seq<string>, end: string, env: Env)
    requires Trim(begin) == "BEGIN:VEVENT" && Inner(body) && Trim(end) == "END:VEVENT"
    ensures Run(s, [begin] + body + [end], env)
            == (var c :- Accumulate(NewCandidate, body, env.offset); Emit(s.kept, s.drawn, c, env))
  {
    var started := s.(open := Some(NewCandidate));
    assert Run(s, [begin], env) == Ok(started) by {
      assert [begin][..0] == [];
    }
    RunAppend(s, [begin], body, env);
    BodyAccumulates(started, body, env);
    RunAppend(s, [begin] + body, [end], env);
    match Accumulate(NewCandidate, body, env.offset)
    case Err(e) =>
    case Ok(c) =>
      var t := started.(open := Some(c));
      assert Run(s, [begin] + body, env) == Ok(t);
      assert Run(t, [end], env) == Step(t, end, env) by {
        assert [end][..0] == [];
      }
      assert Step(t, end, env) == Emit(s.kept, s.drawn, c, env);
  }

  /** Text outside any block is ignored: lines without `BEGIN:VEVENT` leave
      a reader with no open block unchanged. */
  lemma {:induction false} NoBlockNoEvents(s: Scan, lines: seq<string>, env: Env)
    requires s.open.None?
    requires forall i :: 0 <= i < |lines| ==> Trim(lines[i]) != "BEGIN:VEVENT"
    ensures Run(s, lines, env) == Ok(s)
    decreases |lines|
  {
    if |lines| > 0 {
      NoBlockNoEvents(s, lines[..|lines| - 1], env);
    }
  }

  /* ---------------- the whole read ---------------- */

  /** The sort key: `new Date(event.start.dateTime)`, which for a good event
      is its recorded start. */
  function StartMs(k: Kept): int {
    k.startMs
  }

  /** The events of a list of kept records. */
  function Events(ks: seq<Kept>): (r: seq<IcalEvent>)
    ensures |r| == |ks|
    ensures forall i :: 0 <= i < |ks| ==> r[i] == ks[i].event
  {
    seq(|ks|, i requires 0 <= i < |ks| => ks[i].event)
  }

  /** The events of the text that pass the filter, in document order. */
  function Retrieved(text: string, env: Env): (r: Result<seq<Kept>, DateError>)
    ensures r.Ok? ==> GoodFrom(r.value, 0, env)
  {
    var s :- Run(Initial, Split(text, '\n'), env);
    Ok(s.kept)
  }

  /** `getIcalEvents` after the download: the retained events sorted by
      start, at most ten of them. */
  function GetIcalEvents(text: string, env: Env): (r: Result<seq<IcalEvent>, DateError>)
    ensures r.Ok? <==> Retrieved(text, env).Ok?
    ensures r.Ok? ==> |r.value| == if |Retrieved(text, env).value| < 10 then |Retrieved(text, env).value| else 10
  {
    var kept :- Retrieved(text, env);
    Ok(Events(Take(Sort(kept, StartMs), 10)))
  }

  /** Every event `getIcalEvents` returns starts today or later, and they
      come in order of their start instants. */
  lemma GetIcalEventsFiltered(text: string, env: Env)
    requires GetIcalEvents(text, env).Ok?
    ensures var r := GetIcalEvents(text, env).value;
            && (forall i :: 0 <= i < |r| ==>
                  ParseIso(r[i].start.dateTime).Some? && Retained(ParseIso(r[i].start.dateTime).value, env))
            && (forall i, j :: 0 <= i < j < |r| ==>
                  ParseIso(r[i].start.dateTime).value <= ParseIso(r[j].start.dateTime).value)
  {
    var kept := Retrieved(text, env).value;
    var first := Take(Sort(kept, StartMs), 10);
    assert GetIcalEvents(text, env).value == Events(first);
    EarliestGood(kept, env);
    EarliestSorted(kept);
    OrderedStarts(first, env);
  }

  /** Good events in start order, as returned records: each start reads
      back, is retained, and the starts ascend. */
  lemma OrderedStarts(ks: seq<Kept>, env: Env)
    requires GoodFrom(ks, 0, env) && SortedBy(ks, StartMs)
    ensures var r := Events(ks);
            && (forall i :: 0 <= i < |r| ==>
                  ParseIso(r[i].start.dateTime).Some? && Retained(ParseIso(r[i].start.dateTime).value, env))
            && (forall i, j :: 0 <= i < j < |r| ==>
                  ParseIso(r[i].start.dateTime).value <= ParseIso(r[j].start.dateTime).value)
  {
    StartsOfGood(ks, env);
    var r := Events(ks);
    forall i, j | 0 <= i < j < |r|
      ensures ParseIso(r[i].start.dateTime).value <= ParseIso(r[j].start.dateTime).value
    {
      assert StartMs(ks[i]) <= StartMs(ks[j]);
    }
  }

  /** The start of each good event reads back as its recorded start. */
  lemma StartsOfGood(ks: seq<Kept>, env: Env)
    requires GoodFrom(ks, 0, env)
    ensures forall i :: 0 <= i < |ks| ==>
              ParseIso(Events(ks)[i].start.dateTime) == Some(ks[i].startMs) && Retained(ks[i].startMs, env)
  {
    forall i | 0 <= i < |ks|
      ensures ParseIso(Events(ks)[i].start.dateTime) == Some(ks[i].startMs) && Retained(ks[i].startMs, env)
    {
      assert Good(ks[i], env);
    }
  }

  /** The first ten of the sorted events are good. */
  lemma EarliestGood(kept: seq<Kept>, env: Env)
    requires GoodFrom(kept, 0, env)
    ensures GoodFrom(Take(Sort(kept, StartMs), 10), 0, env)
  {
    var sorted := Sort(kept, StartMs);
    var good := (k: Kept) => Good(k, env);
    assert forall i :: 0 <= i < |kept| ==> good(kept[i]);
    SortKeeps(kept, StartMs, good);
    forall i | 0 <= i < |Take(sorted, 10)|
      ensures Good(Take(sorted, 10)[i], env)
    {
      assert good(sorted[i]);
    }
  }

  /** The first ten of the sorted events are in start order. */
  lemma EarliestSorted(kept: seq<Kept>)
    ensures SortedBy(Take(Sort(kept, StartMs), 10), StartMs)
  {
    var sorted := Sort(kept, StartMs);
    PrefixSorted(sorted, |Take(sorted, 10)|, StartMs);
    assert Take(sorted, 10) == sorted[..|Take(sorted, 10)|];
  }

  /** The result is the first ten of the stable sort of the retained events
      by start: any arrangement sorted by start that keeps events with equal
      starts in document order gives the same ten. */
  lemma GetIcalEventsIsStableSort(text: string, env: Env, order: seq<Kept>)
    requires Retrieved(text, env).Ok?
    requires SortedBy(order, StartMs)
    requires forall k :: WithKey(order, StartMs, k) == WithKey(Retrieved(text, env).value, StartMs, k)
    ensures GetIcalEvents(text, env) == Ok(Events(Take(order, 10)))
  {
    StableSortIsSort(Retrieved(text, env).value, order, StartMs);
  }
}
