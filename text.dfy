/**
 * The text handling the server relies on: rendering an int in an interpolated string,
 * `int.TryParse` in its default (NumberStyles.Integer, invariant sign) form, and
 * `string.Split(char)`.
 */
module Text {
  import opened Wrappers

  const Int32Min: int := -0x8000_0000
  const Int32Max: int := 0x7fff_ffff

  /** The range of a C# `int`; `int.TryParse` fails outside it. */
  predicate InInt32(n: int) {
    Int32Min <= n <= Int32Max
  }

  predicate IsDigit(c: char) {
    '0' <= c <= '9'
  }

  predicate AllDigits(s: string) {
    forall i :: 0 <= i < |s| ==> IsDigit(s[i])
  }

  /** The white space `NumberStyles.AllowLeadingWhite`/`AllowTrailingWhite` skip: U+0009..U+000D and U+0020. */
  predicate IsWhite(c: char) {
    c == ' ' || '\t' <= c <= '\r'
  }

  function DigitChar(d: nat): (c: char)
    requires d < 10
    ensures IsDigit(c) && c as int - '0' as int == d
  {
    ('0' as int + d) as char
  }

  function DigitValue(c: char): nat
    requires IsDigit(c)
  {
    c as int - '0' as int
  }

  /** Decimal digits of `n`, most significant first, without leading zeros. */
  function NatToString(n: nat): (s: string)
    ensures |s| >= 1 && AllDigits(s)
    ensures n >= 10 ==> |s| >= 2
    decreases n
  {
    if n < 10 then [DigitChar(n)] else NatToString(n / 10) + [DigitChar(n % 10)]
  }

  /** `n.ToString()` as string interpolation renders it: a '-' before the digits of a negative number. */
  function IntToString(n: int): (s: string)
    ensures |s| >= 1
    ensures forall i :: 0 <= i < |s| ==> IsDigit(s[i]) || (i == 0 && s[i] == '-')
    ensures IsDigit(s[|s| - 1])
    ensures '_' !in s
  {
    if n < 0 then "-" + NatToString(-n) else NatToString(n)
  }

  /** The value of a string of decimal digits, most significant first. */
  function DigitsValue(s: string): nat
    requires AllDigits(s)
    decreases |s|
  {
    if s == [] then 0 else DigitsValue(s[..|s| - 1]) * 10 + DigitValue(s[|s| - 1])
  }

  function TrimStart(s: string): (t: string)
    decreases |s|
  {
    if |s| > 0 && IsWhite(s[0]) then TrimStart(s[1..]) else s
  }

  function TrimEnd(s: string): (t: string)
    decreases |s|
  {
    if |s| > 0 && IsWhite(s[|s| - 1]) then TrimEnd(s[..|s| - 1]) else s
  }

  /** The NUL characters .NET's number parser lets through at the very end of its input. */
  function TrimTrailingNuls(s: string): (t: string)
    decreases |s|
  {
    if |s| > 0 && s[|s| - 1] == '\0' then TrimTrailingNuls(s[..|s| - 1]) else s
  }

  /** What `ParseInt` reads its sign and digits from: leading white space, then trailing NULs, then trailing white space removed. */
  function Trimmed(s: string): string {
    TrimEnd(TrimTrailingNuls(TrimStart(s)))
  }

  /**
   * `int.TryParse(s, out n)`: optional white space around an optional '+' or '-' followed by
   * one or more ASCII digits, then any number of NUL characters, failing when the value does
   * not fit in an `int`.
   */
  function ParseInt(s: string): (r: Option<int>)
    ensures r.Some? ==> InInt32(r.value)
  {
    var t := Trimmed(s);
    var signed := |t| > 0 && (t[0] == '-' || t[0] == '+');
    var digits := if signed then t[1..] else t;
    if |digits| == 0 || !AllDigits(digits) then None
    else
      var v: int := if signed && t[0] == '-' then -(DigitsValue(digits) as int) else DigitsValue(digits);
      if InInt32(v) then Some(v) else None
  }

  /** Reading back the digits of a number gives the number. */
  lemma {:induction false} DigitsValueOfNat(n: nat)
    ensures DigitsValue(NatToString(n)) == n
  {
    if n >= 10 {
      var front := NatToString(n / 10);
      var s := front + [DigitChar(n % 10)];
      assert s[..|s| - 1] == front;
      DigitsValueOfNat(n / 10);
    }
  }

  /** Parsing what `IntToString` renders gives back every `int`. */
  lemma ParseIntToString(n: int)
    requires InInt32(n)
    ensures ParseInt(IntToString(n)) == Some(n)
  {
    var s := IntToString(n);
    if n < 0 {
      assert s[1..] == NatToString(-n);
      DigitsValueOfNat(-n);
      ParseMinusDigits(s);
    } else {
      DigitsValueOfNat(n);
      ParseDigits(s);
    }
  }

  /** Trimming a string that neither starts nor ends with white space, nor ends with NUL, changes nothing. */
  lemma NoWhiteUntrimmed(s: string)
    requires |s| > 0 && !IsWhite(s[0]) && !IsWhite(s[|s| - 1]) && s[|s| - 1] != '\0'
    ensures Trimmed(s) == s
  {
  }

  /** Digits parse to their value when it fits. */
  lemma ParseDigits(t: string)
    requires |t| > 0 && AllDigits(t) && InInt32(DigitsValue(t))
    ensures ParseInt(t) == Some(DigitsValue(t) as int)
  {
    NoWhiteUntrimmed(t);
    assert t[0] != '-' && t[0] != '+';
  }

  /** A '-' before digits parses to the negated value when it fits. */
  lemma ParseMinusDigits(t: string)
    requires |t| > 1 && t[0] == '-' && AllDigits(t[1..])
    requires InInt32(-(DigitsValue(t[1..]) as int))
    ensures ParseInt(t) == Some(-(DigitsValue(t[1..]) as int))
  {
    assert IsDigit(t[1..][|t| - 2]);
    NoWhiteUntrimmed(t);
  }

  /** A NUL after a rendered number is skipped: `int.TryParse("5\0")` gives 5. */
  lemma ParseIntTrailingNul(n: int)
    requires InInt32(n)
    ensures ParseInt(IntToString(n) + ['\0']) == Some(n)
  {
    var s: string := IntToString(n);
    assert [] + s + [] + ['\0'] == s + ['\0'];
    ParseIntPadded([], n, [], ['\0']);
  }

  /** A '+' before digits parses to their value when it fits. */
  lemma ParsePlusDigits(t: string)
    requires |t| > 1 && t[0] == '+' && AllDigits(t[1..])
    requires InInt32(DigitsValue(t[1..]))
    ensures ParseInt(t) == Some(DigitsValue(t[1..]) as int)
  {
    assert IsDigit(t[1..][|t| - 2]);
    NoWhiteUntrimmed(t);
  }

  /** Digits whose value does not fit in 32 bits are rejected, not wrapped. */
  lemma ParseDigitsOverflow(t: string)
    requires |t| > 0 && AllDigits(t) && !InInt32(DigitsValue(t))
    ensures ParseInt(t) == None
  {
    NoWhiteUntrimmed(t);
    assert t[0] != '-' && t[0] != '+';
  }

  /** A '-' before digits whose negated value does not fit in 32 bits is rejected. */
  lemma ParseMinusDigitsOverflow(t: string)
    requires |t| > 1 && t[0] == '-' && AllDigits(t[1..])
    requires !InInt32(-(DigitsValue(t[1..]) as int))
    ensures ParseInt(t) == None
  {
    assert IsDigit(t[1..][|t| - 2]);
    NoWhiteUntrimmed(t);
  }

  predicate AllWhite(w: string) {
    forall i :: 0 <= i < |w| ==> IsWhite(w[i])
  }

  predicate AllNul(z: string) {
    forall i :: 0 <= i < |z| ==> z[i] == '\0'
  }

  lemma {:induction false} TrimStartWhite(w: string, t: string)
    requires AllWhite(w) && |t| > 0 && !IsWhite(t[0])
    ensures TrimStart(w + t) == t
    decreases |w|
  {
    if w == [] {
      assert w + t == t;
    } else {
      assert (w + t)[1..] == w[1..] + t;
      TrimStartWhite(w[1..], t);
    }
  }

  lemma {:induction false} TrimEndWhite(t: string, w: string)
    requires AllWhite(w) && |t| > 0 && !IsWhite(t[|t| - 1])
    ensures TrimEnd(t + w) == t
    decreases |w|
  {
    if w == [] {
      assert t + w == t;
    } else {
      var u := t + w;
      assert u[..|u| - 1] == t + w[..|w| - 1];
      TrimEndWhite(t, w[..|w| - 1]);
    }
  }

  lemma {:induction false} TrimNulsTail(u: string, z: string)
    requires AllNul(z) && |u| > 0 && u[|u| - 1] != '\0'
    ensures TrimTrailingNuls(u + z) == u
    decreases |z|
  {
    if z == [] {
      assert u + z == u;
    } else {
      var v := u + z;
      assert v[..|v| - 1] == u + z[..|z| - 1];
      TrimNulsTail(u, z[..|z| - 1]);
    }
  }

  /**
   * Padding is invisible to `int.TryParse`: white space before, white space after and then NULs
   * leave the reading of a text that neither starts nor ends with white space unchanged.
   */
  lemma PaddingIgnored(w1: string, t: string, w2: string, z: string)
    requires AllWhite(w1) && AllWhite(w2) && AllNul(z)
    requires |t| > 0 && !IsWhite(t[0]) && !IsWhite(t[|t| - 1]) && t[|t| - 1] != '\0'
    ensures ParseInt(w1 + t + w2 + z) == ParseInt(t)
  {
    var u := t + w2;
    assert w1 + t + w2 + z == w1 + (u + z);
    assert (u + z)[0] == t[0];
    TrimStartWhite(w1, u + z);
    assert u[|u| - 1] != '\0' by {
      if w2 != [] { assert IsWhite(w2[|w2| - 1]); }
    }
    TrimNulsTail(u, z);
    TrimEndWhite(t, w2);
    NoWhiteUntrimmed(t);
    assert Trimmed(w1 + t + w2 + z) == Trimmed(t);
  }

  /** A rendered 32-bit integer reads back as itself whatever white space and trailing NULs surround it. */
  lemma ParseIntPadded(w1: string, n: int, w2: string, z: string)
    requires InInt32(n) && AllWhite(w1) && AllWhite(w2) && AllNul(z)
    ensures ParseInt(w1 + IntToString(n) + w2 + z) == Some(n)
  {
    var s := IntToString(n);
    PaddingIgnored(w1, s, w2, z);
    ParseIntToString(n);
  }

  /** The inverse of `Split`: the parts glued back together with the separator between them. */
  function Join(parts: seq<string>, sep: char): string
    requires |parts| >= 1
    decreases |parts|
  {
    if |parts| == 1 then parts[0] else parts[0] + [sep] + Join(parts[1..], sep)
  }

  /**
   * `s.Split(sep)`: the pieces between consecutive occurrences of `sep`, empty pieces included,
   * so a string with k separators has k + 1 parts.
   */
  function Split(s: string, sep: char): (parts: seq<string>)
    ensures |parts| >= 1
    ensures forall i :: 0 <= i < |parts| ==> sep !in parts[i]
    ensures Join(parts, sep) == s
    decreases |s|
  {
    if s == [] then [""]
    else
      var rest := Split(s[1..], sep);
      if s[0] == sep then
        assert ([""] + rest)[1..] == rest;
        [""] + rest
      else
        var parts := [[s[0]] + rest[0]] + rest[1..];
        assert parts[1..] == rest[1..];
        assert s == [s[0]] + s[1..];
        parts
  }

  lemma {:induction false} SplitFree(a: string, sep: char)
    requires sep !in a
    ensures Split(a, sep) == [a]
    decreases |a|
  {
    if a != [] {
      assert sep !in a[1..];
      SplitFree(a[1..], sep);
    }
  }

  lemma {:induction false} SplitAfterPrefix(a: string, b: string, sep: char)
    requires sep !in a
    ensures Split(a + [sep] + b, sep) == [a] + Split(b, sep)
    decreases |a|
  {
    var s := a + [sep] + b;
    if a == [] {
      assert s[1..] == b;
    } else {
      assert s[1..] == a[1..] + [sep] + b;
      assert sep !in a[1..];
      SplitAfterPrefix(a[1..], b, sep);
      assert [a[0]] + a[1..] == a;
    }
  }

  /** Splitting parts that were joined, none of which holds the separator, gives the parts back. */
  lemma {:induction false} SplitJoin(parts: seq<string>, sep: char)
    requires |parts| >= 1
    requires forall i :: 0 <= i < |parts| ==> sep !in parts[i]
    ensures Split(Join(parts, sep), sep) == parts
    decreases |parts|
  {
    if |parts| == 1 {
      SplitFree(parts[0], sep);
    } else {
      SplitJoin(parts[1..], sep);
      SplitAfterPrefix(parts[0], Join(parts[1..], sep), sep);
      assert [parts[0]] + parts[1..] == parts;
    }
  }
}
