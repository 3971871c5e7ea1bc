/**
 * The few JavaScript string operations the modelled code relies on:
 * `String.prototype.split` on a one-character separator, `join`,
 * `Number.prototype.toString` on whole numbers, `padStart` and `trim`.
 */
module JsString {

  // ---------------------------------------------------------------
  // split / join
  // ---------------------------------------------------------------

  /**
   * `s.split(sep)` for a one-character separator: the fields between
   * consecutive separators, empty fields included. There is always at
   * least one field ("".split(" ") is [""]).
   */
  function Split(s: string, sep: char): (r: seq<string>)
    ensures |r| >= 1
    ensures forall i :: 0 <= i < |r| ==> sep !in r[i]
  {
    if s == [] then [""]
    else
      var rest := Split(s[1..], sep);
      if s[0] == sep then [""] + rest
      else [[s[0]] + rest[0]] + rest[1..]
  }

  /** Joining undoes splitting: the fields and separators make up the string again. */
  lemma {:induction false} JoinSplit(s: string, sep: char)
    ensures Join(Split(s, sep), sep) == s
  {
    if s != [] {
      var rest := Split(s[1..], sep);
      JoinSplit(s[1..], sep);
      if s[0] == sep {
        assert ([""] + rest)[1..] == rest;
        assert [sep] + s[1..] == s;
      } else {
        JoinConsFirst(rest, sep, s[0]);
        assert [s[0]] + s[1..] == s;
      }
    }
  }

  /** `parts.join(sep)` with a one-character separator. */
  function Join(parts: seq<string>, sep: char): string
  {
    if |parts| == 0 then ""
    else if |parts| == 1 then parts[0]
    else parts[0] + [sep] + Join(parts[1..], sep)
  }

  lemma JoinConsFirst(parts: seq<string>, sep: char, c: char)
    requires |parts| >= 1
    ensures Join([[c] + parts[0]] + parts[1..], sep) == [c] + Join(parts, sep)
  {
    var q := [[c] + parts[0]] + parts[1..];
    assert q[1..] == parts[1..];
  }

  /** Three fields joined. */
  lemma JoinThree(a: string, b: string, c: string, sep: char)
    ensures Join([a, b, c], sep) == a + [sep] + b + [sep] + c
  {
    assert [a, b, c][1..] == [b, c];
    assert [b, c][1..] == [c];
    assert Join([b, c], sep) == b + [sep] + c;
  }

  /**
   * Splitting undoes joining: fields free of the separator are recovered
   * one for one.
   */
  lemma {:induction false} SplitJoin(parts: seq<string>, sep: char)
    requires |parts| >= 1
    requires forall i :: 0 <= i < |parts| ==> sep !in parts[i]
    ensures Split(Join(parts, sep), sep) == parts
  {
    if |parts| == 1 {
      SplitNoSeparator(parts[0], sep);
    } else {
      SplitJoin(parts[1..], sep);
      SplitPrefix(parts[0], sep, Join(parts[1..], sep));
    }
  }

  /** A string without the separator is a single field. */
  lemma {:induction false} SplitNoSeparator(s: string, sep: char)
    requires sep !in s
    ensures Split(s, sep) == [s]
  {
    if s != [] {
      SplitNoSeparator(s[1..], sep);
      assert s[0] != sep;
      var rest := Split(s[1..], sep);
      assert rest[0] == s[1..] && rest[1..] == [];
      assert [s[0]] + s[1..] == s;
    }
  }

  /** A separator-free prefix followed by the separator is the first field. */
  lemma {:induction false} SplitPrefix(w: string, sep: char, tail: string)
    requires sep !in w
    ensures Split(w + [sep] + tail, sep) == [w] + Split(tail, sep)
  {
    if w == [] {
      assert w + [sep] + tail == [sep] + tail;
      assert ([sep] + tail)[1..] == tail;
    } else {
      var s := w + [sep] + tail;
      SplitPrefix(w[1..], sep, tail);
      assert s[0] == w[0] && s[0] != sep;
      assert s[1..] == w[1..] + [sep] + tail;
      var rest := Split(s[1..], sep);
      assert rest == [w[1..]] + Split(tail, sep);
      assert rest[0] == w[1..] && rest[1..] == Split(tail, sep);
      assert Split(s, sep) == [[s[0]] + rest[0]] + rest[1..];
      assert [w[0]] + w[1..] == w;
    }
  }

  // ---------------------------------------------------------------
  // Number.prototype.toString on whole numbers
  // ---------------------------------------------------------------

  predicate IsDigit(c: char)
  {
    '0' <= c <= '9'
  }

  function DigitChar(d: nat): (c: char)
    requires d < 10
    ensures IsDigit(c)
  {
    ['0', '1', '2', '3', '4', '5', '6', '7', '8', '9'][d]
  }

  function DigitValue(c: char): nat
    requires IsDigit(c)
  {
    (c as int - '0' as int) as nat
  }

  /** Decimal digits of `n`, most significant first, no leading zero. */
  function NatToString(n: nat): (s: string)
    ensures |s| >= 1
    ensures forall i :: 0 <= i < |s| ==> IsDigit(s[i])
    ensures |s| == 1 <==> n < 10
    ensures |s| == 2 <==> 10 <= n < 100
    ensures n >= 10 ==> s[0] != '0'
  {
    if n < 10 then [DigitChar(n)]
    else NatToString(n / 10) + [DigitChar(n % 10)]
  }

  /** The number a string of decimal digits denotes. */
  function ParseNat(s: string): nat
    requires forall i :: 0 <= i < |s| ==> IsDigit(s[i])
  {
    if s == [] then 0
    else 10 * ParseNat(s[..|s| - 1]) + DigitValue(s[|s| - 1])
  }

  /** A string of digits contains no other character, a separator such as ':' in particular. */
  lemma DigitsExclude(s: string, c: char)
    requires forall i :: 0 <= i < |s| ==> IsDigit(s[i])
    requires !IsDigit(c)
    ensures c !in s
  {
  }

  lemma DigitCharValue(d: nat)
    requires d < 10
    ensures DigitValue(DigitChar(d)) == d
  {
  }

  /** Printing a number and reading it back gives the number. */
  lemma {:induction false} ParseNatToString(n: nat)
    ensures ParseNat(NatToString(n)) == n
  {
    var s := NatToString(n);
    if n < 10 {
      DigitCharValue(n);
    } else {
      ParseNatToString(n / 10);
      assert s[..|s| - 1] == NatToString(n / 10);
      DigitCharValue(n % 10);
    }
  }

  /** `String(i)` / `i.toString()` for a whole number. */
  function IntToString(i: int): (s: string)
    ensures |s| >= 1
    ensures i >= 0 ==> s == NatToString(i)
    ensures i < 0 ==> s == "-" + NatToString(-i)
  {
    if i < 0 then "-" + NatToString(-i) else NatToString(i)
  }

  // ---------------------------------------------------------------
  // padStart
  // ---------------------------------------------------------------

  function Repeat(c: char, n: nat): (s: string)
    ensures |s| == n
    ensures forall i :: 0 <= i < n ==> s[i] == c
  {
    if n == 0 then "" else [c] + Repeat(c, n - 1)
  }

  /** `s.padStart(len, [fill])`: fill on the left up to `len` characters. */
  function PadStart(s: string, len: nat, fill: char): (r: string)
    ensures |s| >= len ==> r == s
    ensures |s| < len ==> |r| == len
    ensures exists k: nat :: r == Repeat(fill, k) + s
  {
    if |s| >= len then
      assert s == Repeat(fill, 0) + s;
      s
    else Repeat(fill, len - |s|) + s
  }

  /** Two-digit padding of a number below 100 is its two decimal digits. */
  lemma {:induction false} PadTwoDigits(n: nat)
    requires n < 100
    ensures |PadStart(NatToString(n), 2, '0')| == 2
    ensures ParseNat(PadStart(NatToString(n), 2, '0')) == n
    ensures PadStart(NatToString(n), 2, '0')[0] == DigitChar(n / 10)
    ensures PadStart(NatToString(n), 2, '0')[1] == DigitChar(n % 10)
  {
    var s := NatToString(n);
    var p := PadStart(s, 2, '0');
    if n < 10 {
      assert p == "0" + s;
      assert p[..1] == "0";
      assert ParseNat(p[..1]) == 10 * ParseNat("") + 0;
      DigitCharValue(n);
    } else {
      assert p == s;
      assert s == NatToString(n / 10) + [DigitChar(n % 10)];
      assert NatToString(n / 10) == [DigitChar(n / 10)];
      DigitCharValue(n / 10);
      DigitCharValue(n % 10);
      assert p[..1] == [DigitChar(n / 10)];
      assert ParseNat(p[..1]) == 10 * ParseNat([]) + n / 10;
    }
  }

  // ---------------------------------------------------------------
  // trim
  // ---------------------------------------------------------------

  /** The characters `String.prototype.trim` removes: white space and line terminators. */
  predicate IsWhitespace(c: char)
  {
    || c == '\t' || c == '\n' || c == '\U{000B}' || c == '\U{000C}' || c == '\r' || c == ' '
    || c == '\U{00A0}' || c == '\U{1680}' || ('\U{2000}' <= c <= '\U{200A}')
    || c == '\U{2028}' || c == '\U{2029}' || c == '\U{202F}' || c == '\U{205F}'
    || c == '\U{3000}' || c == '\U{FEFF}'
  }

  function TrimStart(s: string): (r: string)
    ensures |r| <= |s|
    ensures r == s[|s| - |r|..]
    ensures r != [] ==> !IsWhitespace(r[0])
    ensures forall i :: 0 <= i < |s| - |r| ==> IsWhitespace(s[i])
  {
    if s != [] && IsWhitespace(s[0]) then TrimStart(s[1..]) else s
  }

  function TrimEnd(s: string): (r: string)
    ensures |r| <= |s|
    ensures r == s[..|r|]
    ensures r != [] ==> !IsWhitespace(r[|r| - 1])
    ensures forall i :: |r| <= i < |s| ==> IsWhitespace(s[i])
  {
    if s != [] && IsWhitespace(s[|s| - 1]) then TrimEnd(s[..|s| - 1]) else s
  }

  /** `r` is `s` from index `k` on with only white space cut from either end. */
  predicate TrimmedAt(s: string, r: string, k: int)
  {
    && 0 <= k <= k + |r| <= |s|
    && r == s[k..k + |r|]
    && (forall i :: 0 <= i < k ==> IsWhitespace(s[i]))
    && (forall i :: k + |r| <= i < |s| ==> IsWhitespace(s[i]))
  }

  /** `s.trim()`: the string with white space removed at both ends. */
  function Trim(s: string): (r: string)
    ensures |r| <= |s|
    ensures r != [] ==> !IsWhitespace(r[0]) && !IsWhitespace(r[|r| - 1])
    ensures s != [] && IsWhitespace(s[|s| - 1]) ==> |r| < |s|
    ensures exists k :: TrimmedAt(s, r, k)
  {
    TrimEndKeepsStart(TrimStart(s));
    TrimCutsWhitespace(s, TrimStart(s), TrimEnd(TrimStart(s)));
    TrimStartOfTrailingSpace(s);
    TrimEnd(TrimStart(s))
  }

  /**
   * Cutting white space from the start of `s` (giving `t`) and then from
   * the end of `t` (giving `r`) cuts only white space from `s`.
   */
  lemma TrimCutsWhitespace(s: string, t: string, r: string)
    requires |t| <= |s| && t == s[|s| - |t|..] && (forall i :: 0 <= i < |s| - |t| ==> IsWhitespace(s[i]))
    requires |r| <= |t| && r == t[..|r|] && (forall i :: |r| <= i < |t| ==> IsWhitespace(t[i]))
    ensures TrimmedAt(s, r, |s| - |t|)
  {
    var k := |s| - |t|;
    assert r == s[k..k + |r|];
    forall i | k + |r| <= i < |s|
      ensures IsWhitespace(s[i])
    {
      assert s[i] == t[i - k];
    }
  }

  lemma TrimEndKeepsStart(s: string)
    requires s != [] ==> !IsWhitespace(s[0])
    ensures TrimEnd(s) != [] ==> !IsWhitespace(TrimEnd(s)[0])
  {
  }

  /** A string ending in white space loses at least that character. */
  lemma TrimStartOfTrailingSpace(s: string)
    ensures s != [] && IsWhitespace(s[|s| - 1]) ==> |TrimEnd(TrimStart(s))| < |s|
  {
    var t := TrimStart(s);
    if s != [] && IsWhitespace(s[|s| - 1]) && t != [] {
      assert t[|t| - 1] == s[|s| - 1];
    }
  }
}
