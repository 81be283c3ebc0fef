/**
 * The handful of Python string operations the modelled code relies on:
 * `str.lower`, `str.isspace`, `str.strip`, `in` on strings, `str.split(sep)`,
 * `sep.join(parts)`, `str(n)` and `int(s)`.
 *
 * Case mapping and digits are the ASCII ones; whitespace is the set of
 * characters for which Python's `str.isspace()` holds, which is also what
 * `str.split()` and the regular-expression class `\s` use.
 */
module Text {
  import opened Options

  /** `c.isspace()` in Python 3. */
  predicate IsSpace(c: char) {
    c == ' ' || ('\t' <= c <= '\r') || ('\U{1c}' <= c <= '\U{1f}')
    || c == '\U{85}' || c == '\U{a0}' || c == '\U{1680}'
    || ('\U{2000}' <= c <= '\U{200a}') || c == '\U{2028}' || c == '\U{2029}'
    || c == '\U{202f}' || c == '\U{205f}' || c == '\U{3000}'
  }

  predicate IsUpper(c: char) { 'A' <= c <= 'Z' }

  /** `c.lower()` on the ASCII letters. */
  function LowerChar(c: char): char {
    if IsUpper(c) then (c as int + 32) as char else c
  }

  function Lower(s: string): string {
    seq(|s|, i requires 0 <= i < |s| => LowerChar(s[i]))
  }

  /** A string that `Lower` leaves as it is. */
  lemma LowerFixesLowercase(s: string)
    requires forall i :: 0 <= i < |s| ==> !IsUpper(s[i])
    ensures Lower(s) == s
  {
  }

  /** `sub in s`. */
  function Contains(s: string, sub: string): bool
    decreases |s|
  {
    |sub| <= |s| && (s[..|sub|] == sub || Contains(s[1..], sub))
  }

  function TrimStart(s: string): (r: string)
    ensures |r| <= |s| && r == s[|s| - |r|..]
    ensures r != [] ==> !IsSpace(r[0])
    ensures forall i :: 0 <= i < |s| - |r| ==> IsSpace(s[i])
    decreases |s|
  {
    if s != [] && IsSpace(s[0]) then TrimStart(s[1..]) else s
  }

  function TrimEnd(s: string): (r: string)
    ensures |r| <= |s| && r == s[..|r|]
    ensures r != [] ==> !IsSpace(r[|r| - 1])
    ensures forall i :: |r| <= i < |s| ==> IsSpace(s[i])
    decreases |s|
  {
    if s != [] && IsSpace(s[|s| - 1]) then TrimEnd(s[..|s| - 1]) else s
  }

  /** `s.strip()`: leading and trailing whitespace removed, nothing else. */
  function Strip(s: string): (r: string)
    ensures r != [] ==> !IsSpace(r[0]) && !IsSpace(r[|r| - 1])
  {
    TrimEnd(TrimStart(s))
  }

  /** A string that neither starts nor ends with whitespace is its own `strip()`. */
  lemma StripFixesTrimmed(s: string)
    requires s != [] ==> !IsSpace(s[0]) && !IsSpace(s[|s| - 1])
    ensures Strip(s) == s
  {
  }

  /** `s.split(sep)` for a one-character separator. */
  function SplitOn(sep: char, s: string): (parts: seq<string>)
    ensures |parts| >= 1
    decreases |s|
  {
    if s == [] then [""]
    else
      var rest := SplitOn(sep, s[1..]);
      if s[0] == sep then [""] + rest else [[s[0]] + rest[0]] + rest[1..]
  }

  /** `sep.join(parts)` for a one-character separator. */
  function JoinWith(sep: char, parts: seq<string>): string
    decreases |parts|
  {
    if |parts| == 0 then ""
    else if |parts| == 1 then parts[0]
    else parts[0] + [sep] + JoinWith(sep, parts[1..])
  }

  /** Every occurrence of `a` in `s` replaced by `b`, character for character. */
  function Replace(a: char, b: char, s: string): (r: string)
    ensures |r| == |s|
    ensures forall i :: 0 <= i < |s| ==> r[i] == if s[i] == a then b else s[i]
    decreases |s|
  {
    if s == [] then [] else [if s[0] == a then b else s[0]] + Replace(a, b, s[1..])
  }

  /** `b.join(s.split(a))` replaces each `a` by `b`; with `a == b` it gives `s` back. */
  lemma {:induction false} JoinSplitReplaces(a: char, b: char, s: string)
    ensures JoinWith(b, SplitOn(a, s)) == Replace(a, b, s)
    decreases |s|
  {
    if s != [] {
      var rest := SplitOn(a, s[1..]);
      JoinSplitReplaces(a, b, s[1..]);
      var c := if s[0] == a then b else s[0];
      assert Replace(a, b, s) == [c] + Replace(a, b, s[1..]);
      assert JoinWith(b, SplitOn(a, s)) == [c] + JoinWith(b, rest) by {
        var parts := SplitOn(a, s);
        if s[0] == a {
          assert parts == [""] + rest && parts[1..] == rest;
        } else if |rest| == 1 {
          assert parts == [[s[0]] + rest[0]];
        } else {
          assert parts == [[s[0]] + rest[0]] + rest[1..] && parts[1..] == rest[1..];
          assert JoinWith(b, rest) == rest[0] + [b] + JoinWith(b, rest[1..]);
          assert JoinWith(b, parts) == ([s[0]] + rest[0]) + [b] + JoinWith(b, rest[1..]);
        }
      }
    }
  }

  /** Splitting a word free of `sep` that is followed by `s` glues the word onto the first part of `s`. */
  lemma {:induction false} SplitOnWord(sep: char, w: string, s: string)
    requires sep !in w
    ensures SplitOn(sep, w + s) == [w + SplitOn(sep, s)[0]] + SplitOn(sep, s)[1..]
    decreases |w|
  {
    var tail := SplitOn(sep, s);
    if w == [] {
      assert w + s == s && w + tail[0] == tail[0];
      assert tail == [tail[0]] + tail[1..];
    } else {
      SplitOnWord(sep, w[1..], s);
      var rest := SplitOn(sep, w[1..] + s);
      assert SplitOn(sep, w + s) == [[w[0]] + rest[0]] + rest[1..] by {
        assert (w + s)[0] == w[0] && (w + s)[1..] == w[1..] + s;
      }
      assert rest[0] == w[1..] + tail[0] && rest[1..] == tail[1..];
      assert [w[0]] + (w[1..] + tail[0]) == w + tail[0];
    }
  }

  /** `s.split(sep)` undoes `sep.join(parts)` when no part contains `sep`. */
  lemma {:induction false} SplitJoin(sep: char, parts: seq<string>)
    requires |parts| >= 1
    requires forall i :: 0 <= i < |parts| ==> sep !in parts[i]
    ensures SplitOn(sep, JoinWith(sep, parts)) == parts
    decreases |parts|
  {
    if |parts| == 1 {
      SplitOnWord(sep, parts[0], "");
      assert parts[0] + "" == parts[0];
    } else {
      var tail := JoinWith(sep, parts[1..]);
      SplitJoin(sep, parts[1..]);
      SplitOnWord(sep, parts[0], [sep] + tail);
      assert ([sep] + tail)[1..] == tail;
      assert SplitOn(sep, [sep] + tail) == [""] + parts[1..];
      assert parts[0] + [sep] + tail == parts[0] + ([sep] + tail);
      assert parts[0] + "" == parts[0];
      assert parts == [parts[0]] + parts[1..];
    }
  }

  predicate IsDigit(c: char) { '0' <= c <= '9' }

  predicate AllDigits(s: string) { forall i :: 0 <= i < |s| ==> IsDigit(s[i]) }

  function DigitChar(d: nat): (c: char)
    requires d < 10
    ensures IsDigit(c)
  {
    ('0' as int + d) as char
  }

  /** `str(n)` for a natural number. */
  function ShowNat(n: nat): (s: string)
    ensures s != [] && AllDigits(s)
    decreases n
  {
    if n < 10 then [DigitChar(n)] else ShowNat(n / 10) + [DigitChar(n % 10)]
  }

  /** `str(n)` for an integer. */
  function ShowInt(n: int): string {
    if n < 0 then "-" + ShowNat(-n) else ShowNat(n)
  }

  /** The value of a run of decimal digits. */
  function DigitsValue(s: string): nat
    requires AllDigits(s)
    decreases |s|
  {
    if s == [] then 0 else DigitsValue(s[..|s| - 1]) * 10 + (s[|s| - 1] as int - '0' as int)
  }

  /** `int(s)`: surrounding whitespace, an optional sign, then one or more digits; anything else is a `ValueError`, here `None`. */
  function ParseInt(s: string): Option<int> {
    ParseTrimmed(Strip(s))
  }

  /** `int` once the whitespace is gone. */
  function ParseTrimmed(t: string): Option<int> {
    if t != [] && (t[0] == '-' || t[0] == '+') then
      var d := t[1..];
      if d != [] && AllDigits(d) then
        var v: int := if t[0] == '-' then -(DigitsValue(d) as int) else DigitsValue(d);
        Some(v)
      else None
    else if t != [] && AllDigits(t) then Some(DigitsValue(t))
    else None
  }

  lemma {:induction false} DigitsOfShowNat(n: nat)
    ensures DigitsValue(ShowNat(n)) == n
    decreases n
  {
    if n >= 10 {
      DigitsOfShowNat(n / 10);
      var s := ShowNat(n);
      assert s[..|s| - 1] == ShowNat(n / 10);
    }
  }

  /** `int(str(n)) == n`. */
  lemma ParseShowInt(n: int)
    ensures ParseInt(ShowInt(n)) == Some(n)
  {
    StripShowInt(n);
    if n < 0 {
      var d := ShowNat(-n);
      DigitsOfShowNat(-n);
      ParseSigned(d);
    } else {
      var d := ShowNat(n);
      DigitsOfShowNat(n);
      ParseDigits(d);
    }
  }

  /** `str(n)` carries no surrounding whitespace. */
  lemma StripShowInt(n: int)
    ensures Strip(ShowInt(n)) == ShowInt(n)
  {
    var s := ShowInt(n);
    var d := if n < 0 then ShowNat(-n) else ShowNat(n);
    assert s[|s| - 1] == d[|d| - 1] && IsDigit(d[|d| - 1]);
    assert s[0] == '-' || IsDigit(s[0]);
    StripFixesTrimmed(s);
  }

  /** A run of digits parses to its value. */
  lemma ParseDigits(d: string)
    requires d != [] && AllDigits(d)
    ensures ParseTrimmed(d) == Some(DigitsValue(d) as int)
  {
    assert IsDigit(d[0]);
  }

  /** A minus sign before a run of digits negates its value. */
  lemma ParseSigned(d: string)
    requires d != [] && AllDigits(d)
    ensures ParseTrimmed("-" + d) == Some(-(DigitsValue(d) as int))
  {
    assert ("-" + d)[1..] == d;
  }
}
