/**
 * The parts of Python's string semantics that the modelled code relies on:
 * str.isspace, str.strip, str.startswith/endswith, str.replace with an empty
 * replacement, sep.join, int() on a string and str() on an int.
 */
module PyStr {
  import opened Wrappers

  /** Python's str.isspace() for one character (Unicode white space, as CPython defines it). */
  predicate IsSpace(c: char) {
    || ('\t' <= c <= '\r')
    || ('\U{1c}' <= c <= '\U{1f}')
    || c == ' ' || c == '\U{85}' || c == '\U{a0}' || c == '\U{1680}'
    || ('\U{2000}' <= c <= '\U{200a}')
    || c == '\U{2028}' || c == '\U{2029}' || c == '\U{202f}' || c == '\U{205f}' || c == '\U{3000}'
  }

  predicate IsDigit(c: char) {
    '0' <= c <= '9'
  }

  predicate StartsWith(s: string, prefix: string) {
    |prefix| <= |s| && s[..|prefix|] == prefix
  }

  predicate EndsWith(s: string, suffix: string) {
    |suffix| <= |s| && s[|s| - |suffix|..] == suffix
  }

  /** t in s for two strings: t occurs somewhere in s. */
  predicate Contains(s: string, t: string)
    decreases |s|
  {
    StartsWith(s, t) || (|s| > 0 && Contains(s[1..], t))
  }

  /** s.lstrip(): drops leading white space. */
  function LStrip(s: string): string
    decreases |s|
  {
    if |s| > 0 && IsSpace(s[0]) then LStrip(s[1..]) else s
  }

  /** s.rstrip(): drops trailing white space. */
  function RStrip(s: string): string
    decreases |s|
  {
    if |s| > 0 && IsSpace(s[|s| - 1]) then RStrip(s[..|s| - 1]) else s
  }

  /** lstrip() removes a prefix made of white space only, and what it keeps does not start with white space. */
  lemma {:induction false} LStripSpec(s: string)
    ensures var r := LStrip(s);
      && |r| <= |s| && r == s[|s| - |r|..]
      && (forall i :: 0 <= i < |s| - |r| ==> IsSpace(s[i]))
      && (|r| > 0 ==> !IsSpace(r[0]))
    decreases |s|
  {
    if |s| > 0 && IsSpace(s[0]) {
      LStripSpec(s[1..]);
      var r := LStrip(s);
      assert s[1..][|s| - 1 - |r|..] == s[|s| - |r|..];
      forall i | 1 <= i < |s| - |r|
        ensures IsSpace(s[i])
      {
        assert s[i] == s[1..][i - 1];
      }
    }
  }

  /** rstrip() removes a suffix made of white space only, and what it keeps does not end with white space. */
  lemma {:induction false} RStripSpec(s: string)
    ensures var r := RStrip(s);
      && |r| <= |s| && r == s[..|r|]
      && (forall i :: |r| <= i < |s| ==> IsSpace(s[i]))
      && (|r| > 0 ==> !IsSpace(r[|r| - 1]))
    decreases |s|
  {
    if |s| > 0 && IsSpace(s[|s| - 1]) {
      RStripSpec(s[..|s| - 1]);
      var r := RStrip(s);
      assert s[..|s| - 1][..|r|] == s[..|r|];
      forall i | |r| <= i < |s| - 1
        ensures IsSpace(s[i])
      {
        assert s[i] == s[..|s| - 1][i];
      }
    }
  }

  /** s.strip(). */
  function Strip(s: string): string {
    LStrip(RStrip(s))
  }

  predicate NoOuterSpace(s: string) {
    |s| > 0 ==> !IsSpace(s[0]) && !IsSpace(s[|s| - 1])
  }

  /**
   * What strip() returns is the block of s between the white space it cuts
   * off at the front and at the back, and its ends are not white space.
   */
  lemma {:induction false} StripIsTrimmedSlice(s: string)
    ensures var e := |RStrip(s)|; var b := e - |Strip(s)|;
      && 0 <= b <= e <= |s| && Strip(s) == s[b..e]
      && (forall k :: 0 <= k < b ==> IsSpace(s[k]))
      && (forall k :: e <= k < |s| ==> IsSpace(s[k]))
    ensures NoOuterSpace(Strip(s))
  {
    var t := RStrip(s);
    var r := LStrip(t);
    RStripSpec(s);
    LStripSpec(t);
    if |r| > 0 {
      assert r[|r| - 1] == t[|t| - 1];
    }
  }

  /** A string without white space at either end is left alone by strip(). */
  lemma {:induction false} StripNoOuterSpace(s: string)
    requires NoOuterSpace(s)
    ensures Strip(s) == s
  {
  }

  /** strip() is idempotent. */
  lemma StripIdempotent(s: string)
    ensures Strip(Strip(s)) == Strip(s)
  {
    StripIsTrimmedSlice(s);
    StripNoOuterSpace(Strip(s));
  }

  /** sep.join(parts). */
  function Join(parts: seq<string>, sep: string): string
    decreases |parts|
  {
    if |parts| == 0 then ""
    else if |parts| == 1 then parts[0]
    else parts[0] + sep + Join(parts[1..], sep)
  }

  /** Joining one more part adds the separator and that part at the end. */
  lemma {:induction false} JoinSnoc(parts: seq<string>, x: string, sep: string)
    requires |parts| > 0
    ensures Join(parts + [x], sep) == Join(parts, sep) + sep + x
    decreases |parts|
  {
    if |parts| == 1 {
      assert parts + [x] == [parts[0], x];
      assert Join([x], sep) == x;
    } else {
      assert (parts + [x])[1..] == parts[1..] + [x];
      JoinSnoc(parts[1..], x, sep);
    }
  }

  /** The concatenation of a list of strings, built as a loop of `+=` would build it. */
  function Concat(ss: seq<string>): string
    decreases |ss|
  {
    if |ss| == 0 then "" else Concat(ss[..|ss| - 1]) + ss[|ss| - 1]
  }

  lemma {:induction false} ConcatAppend(x: seq<string>, y: seq<string>)
    ensures Concat(x + y) == Concat(x) + Concat(y)
    decreases |y|
  {
    if |y| == 0 {
      assert x + y == x;
    } else {
      var y', last := y[..|y| - 1], y[|y| - 1];
      var xy := x + y;
      assert xy[..|xy| - 1] == x + y' && xy[|xy| - 1] == last;
      ConcatAppend(x, y');
      calc {
        Concat(xy);
        Concat(x + y') + last;
        Concat(x) + Concat(y') + last;
        Concat(x) + (Concat(y') + last);
      }
    }
  }

  lemma ConcatPrefixSnoc(ss: seq<string>, k: nat)
    requires k < |ss|
    ensures Concat(ss[..k + 1]) == Concat(ss[..k]) + ss[k]
  {
    assert ss[..k + 1][..k] == ss[..k];
  }

  /**
   * s.replace(pattern, ""): every occurrence of pattern, found left to right
   * without overlap, is deleted.
   */
  function RemoveAll(s: string, pattern: string): (r: string)
    requires |pattern| > 0
    ensures |r| <= |s|
    decreases |s|
  {
    if |s| < |pattern| then s
    else if s[..|pattern|] == pattern then RemoveAll(s[|pattern|..], pattern)
    else [s[0]] + RemoveAll(s[1..], pattern)
  }

  /** A string that holds no occurrence of the pattern's first character is not changed by RemoveAll. */
  lemma {:induction false} RemoveAllNoFirstChar(s: string, pattern: string)
    requires |pattern| > 0
    requires forall i :: 0 <= i < |s| ==> s[i] != pattern[0]
    ensures RemoveAll(s, pattern) == s
    decreases |s|
  {
    if |s| >= |pattern| {
      assert s[..|pattern|][0] == s[0];
      RemoveAllNoFirstChar(s[1..], pattern);
    }
  }

  /** Deleting the pattern from s + pattern, when s has no occurrence of the pattern's first character, leaves s. */
  lemma {:induction false} RemoveAllSuffix(s: string, pattern: string)
    requires |pattern| > 0
    requires forall i :: 0 <= i < |s| ==> s[i] != pattern[0]
    ensures RemoveAll(s + pattern, pattern) == s
    decreases |s|
  {
    var t := s + pattern;
    if |s| == 0 {
      assert t == pattern;
      assert t[|pattern|..] == "";
    } else {
      assert t[..|pattern|][0] == s[0];
      assert t[1..] == s[1..] + pattern;
      RemoveAllSuffix(s[1..], pattern);
    }
  }

  // ---- int() on a string -------------------------------------------------

  /**
   * The digit part that Python's int() accepts in base 10: ASCII digits,
   * with single underscores allowed between digits.
   */
  predicate DigitBody(d: string) {
    && |d| > 0
    && IsDigit(d[0]) && IsDigit(d[|d| - 1])
    && (forall i :: 0 <= i < |d| ==> IsDigit(d[i]) || d[i] == '_')
    && (forall i :: 0 <= i < |d| - 1 ==> d[i] == '_' ==> d[i + 1] != '_')
  }

  function DigitValue(c: char): nat
    requires IsDigit(c)
  {
    (c as int - '0' as int) as nat
  }

  /** The number written by a digit body, underscores ignored. */
  function DigitsValue(d: string): nat
    decreases |d|
  {
    if |d| == 0 then 0
    else if IsDigit(d[|d| - 1]) then 10 * DigitsValue(d[..|d| - 1]) + DigitValue(d[|d| - 1])
    else DigitsValue(d[..|d| - 1])
  }

  /** int(s) for a str s (base 10); None stands for the ValueError Python raises. */
  function ParseInt(s: string): Option<int> {
    var t := Strip(s);
    if |t| > 0 && (t[0] == '-' || t[0] == '+') then
      if DigitBody(t[1..]) then
        Some(if t[0] == '-' then -(DigitsValue(t[1..]) as int) else DigitsValue(t[1..]) as int)
      else None
    else if DigitBody(t) then Some(DigitsValue(t) as int)
    else None
  }

  // ---- str() on an int ---------------------------------------------------

  function DigitChar(d: nat): (c: char)
    requires d < 10
    ensures IsDigit(c) && DigitValue(c) == d
  {
    ('0' as int + d) as char
  }

  /** str(n) for a non-negative int: its decimal digits without leading zeros. */
  function NatToString(n: nat): (r: string)
    ensures |r| > 0
    decreases n
  {
    if n < 10 then [DigitChar(n)] else NatToString(n / 10) + [DigitChar(n % 10)]
  }

  lemma {:induction false} NatToStringDigits(n: nat)
    ensures forall i :: 0 <= i < |NatToString(n)| ==> IsDigit(NatToString(n)[i])
    decreases n
  {
    if n >= 10 {
      NatToStringDigits(n / 10);
    }
  }

  /** str(i) for any int. */
  function IntToString(i: int): string {
    if i < 0 then "-" + NatToString(-i) else NatToString(i)
  }

  lemma {:induction false} NatToStringValue(n: nat)
    ensures DigitsValue(NatToString(n)) == n
    decreases n
  {
    var r := NatToString(n);
    if n >= 10 {
      NatToStringValue(n / 10);
      assert r[..|r| - 1] == NatToString(n / 10);
    }
  }

  lemma {:induction false} NatToStringDigitBody(n: nat)
    ensures DigitBody(NatToString(n)) && DigitsValue(NatToString(n)) == n
  {
    NatToStringDigits(n);
    NatToStringValue(n);
  }

  /** A digit body without white space or sign parses to its value. */
  lemma {:induction false} ParseDigitBody(d: string)
    requires DigitBody(d)
    ensures ParseInt(d) == Some(DigitsValue(d) as int)
  {
    assert d[0] != '-' && d[0] != '+';
    StripNoOuterSpace(d);
    assert Strip(d) == d;
  }

  /** A leading zero does not change the number a digit string spells. */
  lemma {:induction false} DigitsValueLeadingZero(d: string)
    ensures DigitsValue("0" + d) == DigitsValue(d)
    decreases |d|
  {
    var z := "0" + d;
    if |d| == 0 {
      assert z[..|z| - 1] == "";
    } else {
      assert z[..|z| - 1] == "0" + d[..|d| - 1];
      assert z[|z| - 1] == d[|d| - 1];
      DigitsValueLeadingZero(d[..|d| - 1]);
    }
  }

  /** A minus sign followed by a digit body parses to the negated value. */
  lemma {:induction false} ParseNegDigitBody(d: string)
    requires DigitBody(d)
    ensures ParseInt("-" + d) == Some(-(DigitsValue(d) as int))
  {
    var s := "-" + d;
    assert s[0] == '-' && s[1..] == d;
    assert s[|s| - 1] == d[|d| - 1];
    assert !IsSpace(s[0]) && !IsSpace(s[|s| - 1]);
    StripNoOuterSpace(s);
    assert Strip(s) == s;
  }

  lemma {:induction false} NatRoundTrip(n: nat)
    ensures ParseInt(NatToString(n)) == Some(n as int)
  {
    NatToStringDigitBody(n);
    ParseDigitBody(NatToString(n));
  }

  lemma {:induction false} NegRoundTrip(n: nat)
    ensures ParseInt("-" + NatToString(n)) == Some(-(n as int))
  {
    var d := NatToString(n);
    NatToStringDigitBody(n);
    ParseNegDigitBody(d);
    assert ParseInt("-" + d) == Some(-(DigitsValue(d) as int));
  }

  /** int(str(i)) == i: the decimal rendering of an int parses back to it. */
  lemma {:induction false} IntToStringRoundTrip(i: int)
    ensures ParseInt(IntToString(i)) == Some(i)
  {
    var n: nat := if i < 0 then -i else i;
    if i < 0 {
      NegRoundTrip(n);
      assert IntToString(i) == "-" + NatToString(n);
    } else {
      NatRoundTrip(n);
      assert IntToString(i) == NatToString(n);
    }
  }

  /** str(i) never contains a '.', so it is unaffected by deleting ".json". */
  lemma IntToStringHasNoDot(i: int)
    ensures forall k :: 0 <= k < |IntToString(i)| ==> IntToString(i)[k] != '.'
  {
    var n: nat := if i < 0 then -i else i;
    var d := NatToString(n);
    NatToStringDigits(n);
    if i < 0 {
      assert forall k :: 1 <= k < |IntToString(i)| ==> IntToString(i)[k] == d[k - 1];
    }
  }

  // ---- os.path ------------------------------------------------------------------

  /** os.path.join(a, b) for two POSIX path components. */
  function PathJoin(a: string, b: string): string {
    if StartsWith(b, "/") then b
    else if a == "" || EndsWith(a, "/") then a + b
    else a + "/" + b
  }

  lemma PrefixCancel(p: string, x: string, y: string)
    requires p + x == p + y
    ensures x == y
  {
    assert x == (p + x)[|p|..];
    assert y == (p + y)[|p|..];
  }

  /** os.path.join with a fixed directory is injective on relative names. */
  lemma PathJoinInjective(a: string, b: string, c: string)
    requires !StartsWith(b, "/") && !StartsWith(c, "/")
    requires PathJoin(a, b) == PathJoin(a, c)
    ensures b == c
  {
    if a == "" || EndsWith(a, "/") {
      PrefixCancel(a, b, c);
    } else {
      assert a + "/" + b == (a + "/") + b;
      assert a + "/" + c == (a + "/") + c;
      PrefixCancel(a + "/", b, c);
    }
  }
}
