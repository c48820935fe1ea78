/** The Python string operations the scanner uses (strip, lstrip, rstrip, startswith,
    endswith, the first-occurrence search behind split(':', 1), and upper), over Dafny strings. */
module Text {

  /** The characters for which Python's str.isspace() holds: str.strip() with no
      argument removes exactly these from both ends. */
  const Whitespace: set<char> := {
    ' ', '\t', '\n', '\r', '\U{000B}', '\U{000C}',
    '\U{001C}', '\U{001D}', '\U{001E}', '\U{001F}', '\U{0085}', '\U{00A0}', '\U{1680}',
    '\U{2000}', '\U{2001}', '\U{2002}', '\U{2003}', '\U{2004}', '\U{2005}', '\U{2006}',
    '\U{2007}', '\U{2008}', '\U{2009}', '\U{200A}', '\U{2028}', '\U{2029}', '\U{202F}',
    '\U{205F}', '\U{3000}'
  }

  predicate AllIn(s: string, cs: set<char>) {
    forall i :: 0 <= i < |s| ==> s[i] in cs
  }

  /** str.startswith(prefix) */
  predicate StartsWith(s: string, prefix: string) {
    |prefix| <= |s| && s[..|prefix|] == prefix
  }

  /** str.endswith(suffix) */
  predicate EndsWith(s: string, suffix: string) {
    |suffix| <= |s| && s[|s| - |suffix|..] == suffix
  }

  /** str.lstrip(chars): the longest suffix of s whose removed prefix consists of
      characters in cs. */
  function TrimLeft(s: string, cs: set<char>): (r: string)
    ensures |r| <= |s|
    ensures r == [] || r[0] !in cs
  {
    if s != [] && s[0] in cs then TrimLeft(s[1..], cs) else s
  }

  /** str.rstrip(chars): the longest prefix of s whose removed suffix consists of
      characters in cs. */
  function TrimRight(s: string, cs: set<char>): (r: string)
    ensures |r| <= |s|
    ensures r == [] || r[|r| - 1] !in cs
  {
    if s != [] && s[|s| - 1] in cs then TrimRight(s[..|s| - 1], cs) else s
  }

  /** str.strip() */
  function Strip(s: string): (r: string)
    ensures |r| <= |s|
  {
    TrimLeft(TrimRight(s, Whitespace), Whitespace)
  }

  /** TrimLeft cuts off a prefix made of characters in cs and keeps the rest. */
  lemma {:induction false} TrimLeftCuts(s: string, cs: set<char>)
    ensures var r := TrimLeft(s, cs); r == s[|s| - |r|..] && AllIn(s[..|s| - |r|], cs)
  {
    if s != [] && s[0] in cs {
      TrimLeftCuts(s[1..], cs);
      var r := TrimLeft(s, cs);
      assert s[..|s| - |r|] == [s[0]] + s[1..][..|s| - 1 - |r|];
    }
  }

  /** TrimRight cuts off a suffix made of characters in cs and keeps the rest. */
  lemma {:induction false} TrimRightCuts(s: string, cs: set<char>)
    ensures var r := TrimRight(s, cs); r == s[..|r|] && AllIn(s[|r|..], cs)
  {
    if s != [] && s[|s| - 1] in cs {
      var init := s[..|s| - 1];
      TrimRightCuts(init, cs);
      var r := TrimRight(s, cs);
      assert s[|r|..] == init[|r|..] + [s[|s| - 1]];
    }
  }

  /** Trimming on the right undoes any padding with characters from cs, and nothing more. */
  lemma {:induction false} TrimRightPadded(x: string, y: string, cs: set<char>)
    requires AllIn(y, cs)
    requires x == [] || x[|x| - 1] !in cs
    ensures TrimRight(x + y, cs) == x
  {
    if y != [] {
      var s := x + y;
      assert s[|s| - 1] == y[|y| - 1];
      assert s[..|s| - 1] == x + y[..|y| - 1];
      TrimRightPadded(x, y[..|y| - 1], cs);
    } else {
      assert x + y == x;
    }
  }

  /** Trimming on the left undoes any padding with characters from cs, and nothing more. */
  lemma {:induction false} TrimLeftPadded(x: string, y: string, cs: set<char>)
    requires AllIn(x, cs)
    requires y == [] || y[0] !in cs
    ensures TrimLeft(x + y, cs) == y
  {
    if x != [] {
      var s := x + y;
      assert s[0] == x[0];
      assert s[1..] == x[1..] + y;
      TrimLeftPadded(x[1..], y, cs);
    } else {
      assert x + y == y;
    }
  }

  /** Strip is the reference definition "remove the whitespace padding on both sides":
      whatever whitespace surrounds a core that neither starts nor ends with whitespace,
      Strip returns that core. */
  lemma StripPadded(a: string, m: string, b: string)
    requires AllIn(a, Whitespace) && AllIn(b, Whitespace)
    requires m == [] || (m[0] !in Whitespace && m[|m| - 1] !in Whitespace)
    ensures Strip(a + m + b) == m
  {
    if m == [] {
      assert a + m + b == [] + (a + b);
      TrimRightPadded([], a + b, Whitespace);
    } else {
      TrimRightPadded(a + m, b, Whitespace);
      TrimLeftPadded(a, m, Whitespace);
    }
  }

  /** A string that neither starts nor ends with whitespace is left as it is. */
  lemma StripPlain(s: string)
    requires s == [] || (s[0] !in Whitespace && s[|s| - 1] !in Whitespace)
    ensures Strip(s) == s
  {
    StripPadded([], s, []);
    assert [] + s + [] == s;
  }

  /** Stripping twice is stripping once. */
  lemma StripIdempotent(s: string)
    ensures Strip(Strip(s)) == Strip(s)
  {
    var t := TrimRight(s, Whitespace);
    var r := Strip(s);
    TrimLeftCuts(t, Whitespace);
    if r != [] {
      assert r[|r| - 1] == t[|t| - 1];
    }
    StripPlain(r);
  }

  /** The index of the first occurrence of c in s, or |s| when c does not occur. */
  function IndexOf(s: string, c: char): (k: nat)
    ensures k <= |s|
    ensures forall i :: 0 <= i < k ==> s[i] != c
    ensures k < |s| ==> s[k] == c
  {
    if s == [] || s[0] == c then 0 else 1 + IndexOf(s[1..], c)
  }

  /** str.upper() on one character, for the ASCII letters. */
  function UpperChar(c: char): char {
    if 'a' <= c <= 'z' then (c as int - 32) as char else c
  }

  predicate IsLowerAscii(c: char) {
    'a' <= c <= 'z'
  }

  /** str.upper(), for ASCII text. */
  function Upper(s: string): (r: string)
    ensures |r| == |s|
    ensures forall i :: 0 <= i < |s| ==> r[i] == UpperChar(s[i])
  {
    if s == [] then [] else [UpperChar(s[0])] + Upper(s[1..])
  }

  /** After upper-casing no ASCII lower-case letter is left, everything else is kept, and
      upper-casing again changes nothing. */
  lemma UpperNormalises(s: string)
    ensures forall i :: 0 <= i < |s| ==> !IsLowerAscii(Upper(s)[i])
    ensures forall i :: 0 <= i < |s| && !IsLowerAscii(s[i]) ==> Upper(s)[i] == s[i]
    ensures Upper(Upper(s)) == Upper(s)
  {
  }
}
