/** The few JavaScript string primitives the application relies on, on
    strings as sequences of characters. */
module JsString {
  import opened Wrappers

  /** Characters `String.prototype.trim` strips: the WhiteSpace and
      LineTerminator productions of ECMA-262. */
  predicate IsTrimmable(c: char) {
    c == '\t' || c == '\n' || c == '\U{000B}' || c == '\U{000C}' || c == '\r'
    || c == ' ' || c == '\U{00A0}' || c == '\U{1680}' || ('\U{2000}' <= c <= '\U{200A}')
    || c == '\U{2028}' || c == '\U{2029}' || c == '\U{202F}' || c == '\U{205F}'
    || c == '\U{3000}' || c == '\U{FEFF}'
  }

  /** Line terminators: the characters `.` in a regular expression does not
      match. */
  predicate IsLineTerminator(c: char) {
    c == '\n' || c == '\r' || c == '\U{2028}' || c == '\U{2029}'
  }

  /** JavaScript truthiness of a string that may be `undefined`: absent and
      empty strings are falsy. */
  predicate Truthy(o: Option<string>) {
    o.Some? && o.value != ""
  }

  /** `o || fallback` on a possibly absent string. */
  function OrElse(o: Option<string>, fallback: string): (r: string)
    ensures Truthy(o) ==> r == o.value
    ensures !Truthy(o) ==> r == fallback
  {
    if Truthy(o) then o.value else fallback
  }

  /** `s.indexOf(c)`: the first position of `c`, or -1. */
  function IndexOf(s: string, c: char): (i: int)
    ensures -1 <= i < |s|
    ensures i == -1 <==> c !in s
    ensures 0 <= i ==> s[i] == c && c !in s[..i]
  {
    if |s| == 0 then -1
    else if s[0] == c then 0
    else
      var j := IndexOf(s[1..], c);
      if j == -1 then -1
      else
        assert s[..j + 1] == [s[0]] + s[1..][..j];
        j + 1
  }

  /** `parts.join(sep)`. */
  function Join(parts: seq<string>, sep: char): string {
    if |parts| == 0 then ""
    else if |parts| == 1 then parts[0]
    else parts[0] + [sep] + Join(parts[1..], sep)
  }

  /** `s.split(sep)` for a one-character separator: the separator-free pieces
      between separators, which join back to `s`; the first piece is the
      longest separator-free prefix. */
  function Split(s: string, sep: char): (parts: seq<string>)
    ensures |parts| >= 1
    ensures forall k :: 0 <= k < |parts| ==> sep !in parts[k]
    ensures Join(parts, sep) == s
    ensures parts[0] <= s && (|parts[0]| == |s| || s[|parts[0]|] == sep)
    decreases |s|
  {
    var i := IndexOf(s, sep);
    if i == -1 then [s]
    else
      var head, tail := s[..i], s[i + 1..];
      var rest := Split(tail, sep);
      JoinCons(head, rest, sep);
      assert s == head + [sep] + tail;
      [head] + rest
  }

  lemma JoinCons(p: string, rest: seq<string>, sep: char)
    requires |rest| >= 1
    ensures Join([p] + rest, sep) == p + [sep] + Join(rest, sep)
  {
    assert ([p] + rest)[1..] == rest;
  }

  /** Splitting a join of separator-free pieces gives the pieces back. */
  lemma {:induction false} SplitJoin(parts: seq<string>, sep: char)
    requires |parts| >= 1
    requires forall k :: 0 <= k < |parts| ==> sep !in parts[k]
    ensures Split(Join(parts, sep), sep) == parts
    decreases |parts|
  {
    if |parts| > 1 {
      var p, rest := parts[0], Join(parts[1..], sep);
      IndexOfFirst(p, sep, rest);
      var s := p + [sep] + rest;
      assert s[..|p|] == p;
      assert s[|p| + 1..] == rest;
      SplitJoin(parts[1..], sep);
    }
  }

  /** The first `c` in `a + [c] + b` is the one after `a` when `a` has none. */
  lemma {:induction false} IndexOfFirst(a: string, c: char, b: string)
    requires c !in a
    ensures IndexOf(a + [c] + b, c) == |a|
    decreases |a|
  {
    if |a| > 0 {
      assert (a + [c] + b)[1..] == a[1..] + [c] + b;
      IndexOfFirst(a[1..], c, b);
    }
  }

  /** The first piece of `d + [c] + rest` split on `c` is `d` when `d` holds
      no `c`. */
  lemma SplitFirst(d: string, c: char, rest: string)
    requires c !in d
    ensures Split(d + ([c] + rest), c)[0] == d
  {
    assert d + ([c] + rest) == d + [c] + rest;
    IndexOfFirst(d, c, rest);
    assert (d + [c] + rest)[..|d|] == d;
  }

  /** How many characters at the front of `s` satisfy `p`. */
  function Leading(s: string, p: char -> bool): (n: nat)
    ensures n <= |s|
    ensures forall j :: 0 <= j < n ==> p(s[j])
    ensures n == |s| || !p(s[n])
  {
    if |s| > 0 && p(s[0]) then 1 + Leading(s[1..], p) else 0
  }

  /** How many characters at the end of `s` satisfy `p`. */
  function Trailing(s: string, p: char -> bool): (n: nat)
    ensures n <= |s|
    ensures forall j :: |s| - n <= j < |s| ==> p(s[j])
    ensures n == |s| || !p(s[|s| - n - 1])
  {
    if |s| > 0 && p(s[|s| - 1]) then 1 + Trailing(s[..|s| - 1], p) else 0
  }

  /** `s` without the characters satisfying `p` at either end: its middle,
      from index `Leading(s, p)` on, which starts and ends with a character
      `p` rejects. */
  function Strip(s: string, p: char -> bool): (r: string)
    ensures var i := Leading(s, p);
            && i + |r| <= |s| && r == s[i..i + |r|]
            && (forall j :: i + |r| <= j < |s| ==> p(s[j]))
    ensures r == [] || (!p(r[0]) && !p(r[|r| - 1]))
  {
    var i := Leading(s, p);
    var rest := s[i..];
    var k := Trailing(rest, p);
    var r := rest[..|rest| - k];
    assert r == s[i..i + |r|];
    forall j | i + |r| <= j < |s|
      ensures p(s[j])
    {
      assert s[j] == rest[j - i];
    }
    assert r != [] ==> r[0] == rest[0] && r[|r| - 1] == rest[|rest| - k - 1];
    r
  }

  /** `s.trim()`: the middle of `s` between its trimmable ends, which starts
      and ends with a character trim keeps. */
  function Trim(s: string): (r: string)
    ensures exists i {:trigger s[i..]} :: 0 <= i <= |s| - |r| && r == s[i..][..|r|]
              && (forall j :: 0 <= j < i ==> IsTrimmable(s[j]))
              && (forall j :: i + |r| <= j < |s| ==> IsTrimmable(s[j]))
    ensures r == [] || (!IsTrimmable(r[0]) && !IsTrimmable(r[|r| - 1]))
  {
    var r := Strip(s, IsTrimmable);
    var i := Leading(s, IsTrimmable);
    assert r == s[i..][..|r|];
    r
  }

  /** Trimming is idempotent. */
  lemma TrimIdempotent(s: string)
    ensures Trim(Trim(s)) == Trim(s)
  {
    var r := Trim(s);
    assert Leading(r, IsTrimmable) == 0;
    assert r[0..] == r;
    assert Trailing(r, IsTrimmable) == 0;
  }

  /** ASCII letters in upper case; every other character unchanged. */
  function UpperChar(c: char): char {
    if 'a' <= c <= 'z' then (c as int - 32) as char else c
  }

  /** `s.toUpperCase()` restricted to ASCII letters. */
  function ToUpper(s: string): (r: string)
    ensures |r| == |s|
    ensures forall i :: 0 <= i < |s| ==> r[i] == UpperChar(s[i])
  {
    seq(|s|, i requires 0 <= i < |s| => UpperChar(s[i]))
  }

  /** `s.slice(0, n)`: the first `n` elements, or all of `s` if shorter. */
  function Take<T>(s: seq<T>, n: nat): (r: seq<T>)
    ensures |r| == if |s| < n then |s| else n
    ensures r <= s
  {
    if |s| < n then s else s[..n]
  }
}
