/** The text the app header shows beside the profile picture, from
    src/components/Header.js: the initials placeholder, the greeting for the
    hour of the day, and the first name. Strings are sequences of code
    points; upper-casing is the ASCII mapping of `JsString.UpperChar`. */
module Header {
  import opened Wrappers
  import opened JsString
  import Civil
  import IcalFeed

  /* ---------------- getInitials ---------------- */

  /** `words.map(n => n[0]).join('')`: the first character of every word; an
      empty word gives `undefined`, which `join` writes as nothing. */
  function FirstChars(words: seq<string>): (r: string)
    ensures |r| <= |words|
    decreases |words|
  {
    if |words| == 0 then ""
    else
      var last := words[|words| - 1];
      FirstChars(words[..|words| - 1]) + (if |last| > 0 then [last[0]] else "")
  }

  lemma {:induction false} FirstCharsAppend(a: seq<string>, b: seq<string>)
    ensures FirstChars(a + b) == FirstChars(a) + FirstChars(b)
    decreases |b|
  {
    if |b| == 0 {
      assert a + b == a;
    } else {
      assert (a + b)[..|a + b| - 1] == a + b[..|b| - 1];
      FirstCharsAppend(a, b[..|b| - 1]);
    }
  }

  /** Empty words, from leading, trailing or repeated spaces, add nothing. */
  lemma EmptyWordIgnored(a: seq<string>, b: seq<string>)
    ensures FirstChars(a + [""] + b) == FirstChars(a + b)
  {
    FirstCharsAppend(a + [""], b);
    FirstCharsAppend(a, [""]);
    FirstCharsAppend(a, b);
    assert FirstChars([""]) == "" by {
      assert [""][..0] == [];
    }
  }

  /** Of words that are all non-empty, the first characters in order. */
  lemma {:induction false} FirstCharsOfWords(words: seq<string>)
    requires forall k :: 0 <= k < |words| ==> |words[k]| > 0
    ensures |FirstChars(words)| == |words|
    ensures forall k :: 0 <= k < |words| ==> FirstChars(words)[k] == words[k][0]
    decreases |words|
  {
    if |words| > 0 {
      FirstCharsOfWords(words[..|words| - 1]);
    }
  }

  /** `getInitials`: `?` for a missing or empty name, otherwise the first two
      of the upper-cased first characters of the space-separated words. */
  function GetInitials(name: Option<string>): (r: string)
    ensures !Truthy(name) ==> r == "?"
    ensures |r| <= 2
  {
    if !Truthy(name) then "?"
    else Take(ToUpper(FirstChars(Split(name.value, ' '))), 2)
  }

  /** For a name written as words separated by single spaces, the initials
      are the upper-cased first letters of the first two words. */
  lemma InitialsOfWords(words: seq<string>)
    requires |words| >= 1
    requires forall k :: 0 <= k < |words| ==> |words[k]| > 0 && ' ' !in words[k]
    ensures Join(words, ' ') != ""
    ensures var r := GetInitials(Some(Join(words, ' ')));
            && |r| == (if |words| < 2 then |words| else 2)
            && forall k :: 0 <= k < |r| ==> r[k] == UpperChar(words[k][0])
  {
    SplitJoin(words, ' ');
    FirstCharsOfWords(words);
    JoinedParts(words, ' ', 0);
  }

  /** `n` spaces. */
  function Spaces(n: nat): (s: string)
    ensures |s| == n && forall i :: 0 <= i < n ==> s[i] == ' '
  {
    seq(n, _ => ' ')
  }

  /** A name of nothing but spaces has no initials at all. */
  lemma BlankNameNoInitials(n: nat)
    requires n > 0
    ensures GetInitials(Some(Spaces(n))) == ""
  {
    var words := Split(Spaces(n), ' ');
    SplitBlank(Spaces(n), ' ');
    assert forall k :: 0 <= k < |Split(Spaces(n), ' ')| ==> Split(Spaces(n), ' ')[k] == "";
    NoFirstChars(words);
  }

  /** Splitting a run of separators gives only empty words. */
  lemma {:induction false} SplitBlank(s: string, sep: char)
    requires forall i :: 0 <= i < |s| ==> s[i] == sep
    ensures forall k :: 0 <= k < |Split(s, sep)| ==> Split(s, sep)[k] == ""
    decreases |s|
  {
    if |s| > 0 {
      assert IndexOf(s, sep) == 0;
      var rest := Split(s[1..], sep);
      SplitBlank(s[1..], sep);
      assert Split(s, sep) == [s[..0]] + rest;
      assert s[..0] == "";
      forall k | 0 < k < |Split(s, sep)|
        ensures Split(s, sep)[k] == ""
      {
        assert Split(s, sep)[k] == rest[k - 1];
      }
    }
  }

  /** Every part of a join appears in the joined text. */
  lemma {:induction false} JoinedParts(parts: seq<string>, sep: char, k: nat)
    requires k < |parts|
    ensures |parts[k]| <= |Join(parts, sep)|
    ensures forall i :: 0 <= i < |parts[k]| ==> parts[k][i] in Join(parts, sep)
    decreases |parts|
  {
    if |parts| > 1 {
      assert Join(parts, sep) == parts[0] + [sep] + Join(parts[1..], sep);
      if k > 0 {
        JoinedParts(parts[1..], sep, k - 1);
      }
    }
  }

  lemma {:induction false} NoFirstChars(words: seq<string>)
    requires forall k :: 0 <= k < |words| ==> words[k] == ""
    ensures FirstChars(words) == ""
    decreases |words|
  {
    if |words| > 0 {
      NoFirstChars(words[..|words| - 1]);
    }
  }

  /* ---------------- getGreeting ---------------- */

  const MsPerHour: int := 3_600_000

  /** `new Date().getHours()` for the time value `now` at local offset
      `offset`. */
  function LocalHour(now: int, offset: int): (h: int)
    ensures 0 <= h < 24
    ensures IcalFeed.LocalMidnight(now, offset) + h * MsPerHour <= now
              < IcalFeed.LocalMidnight(now, offset) + (h + 1) * MsPerHour
  {
    ((now + offset) % Civil.MsPerDay) / MsPerHour
  }

  /** `getGreeting`: morning before noon, afternoon until five, evening from
      five; each hour gets exactly one of them. */
  function GetGreeting(hour: int): (r: string)
    ensures r in {"Good morning", "Good afternoon", "Good evening"}
    ensures r == "Good morning" <==> hour < 12
    ensures r == "Good afternoon" <==> 12 <= hour < 17
    ensures r == "Good evening" <==> 17 <= hour
  {
    if hour < 12 then "Good morning"
    else if hour < 17 then "Good afternoon"
    else "Good evening"
  }

  /** The greeting by clock time: morning in the twelve hours after local
      midnight, afternoon in the five after that, evening in the rest. */
  lemma GreetingByTime(now: int, offset: int)
    ensures var m := IcalFeed.LocalMidnight(now, offset);
            var g := GetGreeting(LocalHour(now, offset));
            && (g == "Good morning" <==> now < m + 12 * MsPerHour)
            && (g == "Good afternoon" <==> m + 12 * MsPerHour <= now < m + 17 * MsPerHour)
            && (g == "Good evening" <==> m + 17 * MsPerHour <= now)
  {
    var m := IcalFeed.LocalMidnight(now, offset);
    var h := LocalHour(now, offset);
    assert m + h * MsPerHour <= now < m + (h + 1) * MsPerHour;
    if h < 12 {
      assert (h + 1) * MsPerHour <= 12 * MsPerHour;
    } else {
      assert 12 * MsPerHour <= h * MsPerHour;
    }
    if h < 17 {
      assert (h + 1) * MsPerHour <= 17 * MsPerHour;
    } else {
      assert 17 * MsPerHour <= h * MsPerHour;
    }
  }

  /* ---------------- the first name ---------------- */

  /** `user.fullName?.split(' ')[0] || 'User'`: the text before the first
      space, or `User` when there is none, as with a missing name, an empty
      one or one that starts with a space. */
  function FirstName(fullName: Option<string>): (r: string)
    ensures fullName.None? || fullName.value == "" || fullName.value[0] == ' ' ==> r == "User"
    ensures fullName.Some? && fullName.value != "" && fullName.value[0] != ' ' ==>
              && 0 < |r| && r <= fullName.value && ' ' !in r
              && (|r| == |fullName.value| || fullName.value[|r|] == ' ')
  {
    if fullName.None? then "User"
    else
      var w := Split(fullName.value, ' ')[0];
      if w == "" then "User"
      else
        assert w[0] == fullName.value[0];
        w
  }

  /** The first word of a name is what the greeting uses. */
  lemma FirstNameOfWords(first: string, rest: string)
    requires first != "" && ' ' !in first
    ensures FirstName(Some(first)) == first
    ensures FirstName(Some(first + ([' '] + rest))) == first
  {
    SplitFirst(first, ' ', rest);
    SplitJoin([first], ' ');
    assert Join([first], ' ') == first;
  }
}
