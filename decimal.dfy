/**
 * The pieces of Python's text handling the cron parser and the TZ synthesiser
 * rely on: `str(n)` for integers, `int(s)` on a string (base 10), and
 * `s.split(sep)` with a one-character separator.
 */
module Decimal {
  import opened Wrappers

  predicate IsDigit(c: char) { '0' <= c <= '9' }

  function DigitValue(c: char): (d: nat)
    requires IsDigit(c)
    ensures d < 10
  {
    c as int - '0' as int
  }

  function DigitChar(d: nat): (c: char)
    requires d < 10
    ensures IsDigit(c) && DigitValue(c) == d
  {
    ('0' as int + d) as char
  }

  predicate AllDigits(s: string) { forall i :: 0 <= i < |s| ==> IsDigit(s[i]) }

  /** The number a string of decimal digits denotes, most significant digit first. */
  function DigitsValue(s: string): nat
    requires AllDigits(s)
  {
    if s == [] then 0 else 10 * DigitsValue(s[..|s| - 1]) + DigitValue(s[|s| - 1])
  }

  /** `str(n)` for a non-negative integer: its decimal digits without leading zeros. */
  function NatToString(n: nat): (s: string)
    ensures |s| >= 1 && AllDigits(s)
    ensures s[0] == '0' ==> n == 0 && s == "0"
  {
    if n < 10 then [DigitChar(n)] else NatToString(n / 10) + [DigitChar(n % 10)]
  }

  /** `str(i)` for any integer: a minus sign in front of the digits of a negative number. */
  function IntToString(i: int): (s: string)
    ensures |s| >= 1 && (s[0] == '-' <==> i < 0)
    ensures forall k :: 0 < k < |s| ==> IsDigit(s[k])
  {
    if i < 0 then "-" + NatToString(-i) else NatToString(i)
  }

  lemma {:induction false} NatToStringValue(n: nat)
    ensures DigitsValue(NatToString(n)) == n
  {
    if n >= 10 {
      NatToStringValue(n / 10);
      var s := NatToString(n);
      assert s[..|s| - 1] == NatToString(n / 10);
    }
  }

  /** The characters Python's `int()` strips from both ends of its argument (ASCII range). */
  predicate IsSpace(c: char) {
    var k := c as int; k == 32 || 9 <= k <= 13 || 28 <= k <= 31
  }

  function TrimStart(s: string): (t: string)
    ensures |t| <= |s| && t == s[|s| - |t|..]
    ensures t == [] || !IsSpace(t[0])
    ensures forall i :: 0 <= i < |s| - |t| ==> IsSpace(s[i])
  {
    if s != [] && IsSpace(s[0]) then TrimStart(s[1..]) else s
  }

  function TrimEnd(s: string): (t: string)
    ensures |t| <= |s| && t == s[..|t|]
    ensures t == [] || !IsSpace(t[|t| - 1])
    ensures forall i :: |t| <= i < |s| ==> IsSpace(s[i])
  {
    if s != [] && IsSpace(s[|s| - 1]) then TrimEnd(s[..|s| - 1]) else s
  }

  /** `s.strip()` for the whitespace `int()` accepts around a number. */
  function Strip(s: string): string { TrimEnd(TrimStart(s)) }

  /**
   * The digit part Python 3's `int()` accepts: digits, with single underscores
   * allowed between two digits.
   */
  predicate IsDigitGroup(s: string) {
    && |s| > 0 && IsDigit(s[0]) && IsDigit(s[|s| - 1])
    && (forall i :: 0 <= i < |s| ==> IsDigit(s[i]) || s[i] == '_')
    && (forall i :: 0 <= i < |s| - 1 ==> !(s[i] == '_' && s[i + 1] == '_'))
  }

  /** The digits of a digit group with its underscores removed. */
  function Digits(s: string): (t: string)
    ensures (forall i :: 0 <= i < |s| ==> IsDigit(s[i]) || s[i] == '_') ==> AllDigits(t)
    ensures AllDigits(s) ==> t == s
  {
    if s == [] then [] else (if s[0] == '_' then [] else [s[0]]) + Digits(s[1..])
  }

  /**
   * `int(s)` on a string: surrounding whitespace, an optional sign, then a
   * digit group; anything else is None (the source's ValueError).
   */
  function ParseInt(s: string): (r: Option<int>)
  {
    var t := Strip(s);
    if |t| > 0 && (t[0] == '+' || t[0] == '-') then
      if IsDigitGroup(t[1..]) then
        var n: int := DigitsValue(Digits(t[1..]));
        Some(if t[0] == '-' then -n else n)
      else None
    else if IsDigitGroup(t) then Some(DigitsValue(Digits(t)))
    else None
  }

  lemma StripNoSpace(s: string)
    requires s != [] && !IsSpace(s[0]) && !IsSpace(s[|s| - 1])
    ensures Strip(s) == s
  {
    assert TrimStart(s) == s;
  }

  /** The text of a natural number is a digit group that reads back as the number. */
  lemma NatToStringGroup(n: nat)
    ensures IsDigitGroup(NatToString(n))
    ensures DigitsValue(Digits(NatToString(n))) == n
  {
    NatToStringValue(n);
  }

  /** Reading back what `str()` wrote gives the number again. */
  lemma ParseIntToString(i: int)
    ensures ParseInt(IntToString(i)) == Some(i)
  {
    var s := IntToString(i);
    var n: nat := if i < 0 then -i else i;
    var d := NatToString(n);
    NatToStringGroup(n);
    if i < 0 {
      assert s == "-" + d;
      assert s[|s| - 1] == d[|d| - 1];
      StripNoSpace(s);
      assert s[1..] == d;
    } else {
      assert s == d;
      StripNoSpace(s);
    }
  }

  lemma StripKeeps(s: string, i: nat)
    requires i < |s| && !IsSpace(s[i])
    ensures s[i] in Strip(s)
  {
    var a := TrimStart(s);
    var k := |s| - |a|;
    assert a[i - k] == s[i];
    var b := TrimEnd(a);
    assert b[i - k] == s[i];
  }

  /** A token holding a character that is no digit, sign, underscore or space is not an integer. */
  lemma ParseIntRejects(s: string, i: nat)
    requires i < |s| && !IsSpace(s[i]) && !IsDigit(s[i]) && s[i] != '+' && s[i] != '-' && s[i] != '_'
    ensures ParseInt(s) == None
  {
    StripKeeps(s, i);
    var t := Strip(s);
    var j :| 0 <= j < |t| && t[j] == s[i];
    if |t| > 0 && (t[0] == '+' || t[0] == '-') {
      assert t[1..][j - 1] == s[i];
    }
  }

  /**
   * Texts made only of digits, signs, underscores and spaces that `int()`
   * still refuses: nothing at all, a bare sign, a doubled sign, a doubled
   * underscore, and a space between digits.
   */
  lemma MalformedNumbers()
    ensures ParseInt("") == None && ParseInt("+") == None && ParseInt("--1") == None
    ensures ParseInt("1__2") == None && ParseInt("1 2") == None
  {
    BareSign();
    DoubledSign();
    DoubledUnderscore();
    SpaceBetweenDigits();
  }

  lemma BareSign()
    ensures ParseInt("+") == None
  {
    var t := "+";
    assert |t| == 1 && t[1..] == [];
    StripNoSpace(t);
  }

  lemma DoubledSign()
    ensures ParseInt("--1") == None
  {
    var t := "--1";
    assert |t| == 3 && t[1..][0] == '-';
    StripNoSpace(t);
  }

  lemma DoubledUnderscore()
    ensures ParseInt("1__2") == None
  {
    var t := "1__2";
    assert |t| == 4 && t[1] == '_' && t[2] == '_';
    StripNoSpace(t);
  }

  lemma SpaceBetweenDigits()
    ensures ParseInt("1 2") == None
  {
    var t := "1 2";
    assert |t| == 3 && !IsDigit(t[1]) && t[1] != '_';
    StripNoSpace(t);
  }

  lemma ZeroText()
    ensures ParseInt("0") == Some(0)
  {
    var t := "0";
    assert |t| == 1 && t[0] == '0' && t[..0] == [];
    StripNoSpace(t);
  }

  /** Single underscores between digits are accepted, as Python 3 does. */
  lemma UnderscoreBetweenDigits()
    ensures ParseInt("1_0") == Some(10)
  {
    var t := "1_0";
    assert |t| == 3 && t[0] == '1' && t[2] == '0';
    TenWithUnderscore();
    StripNoSpace(t);
  }

  lemma TenWithUnderscore()
    ensures IsDigitGroup("1_0") && Digits("1_0") == "10" && DigitsValue("10") == 10
  {
    var t := "1_0";
    assert |t| == 3 && t[1..] == "_0" && t[1..][1..] == "0";
    var d := "10";
    assert |d| == 2 && d[..1] == "1" && d[..1][..0] == [];
  }

  /** The position of the first `c` in `s`. */
  function IndexOf(s: string, c: char): (i: nat)
    requires c in s
    ensures i < |s| && s[i] == c && c !in s[..i]
  {
    if s[0] == c then 0
    else
      var j := IndexOf(s[1..], c);
      assert s[..j + 1] == [s[0]] + s[1..][..j];
      j + 1
  }

  /** `sep.join(parts)` for a one-character separator. */
  function Join(parts: seq<string>, sep: char): string
    requires |parts| >= 1
  {
    if |parts| == 1 then parts[0] else parts[0] + [sep] + Join(parts[1..], sep)
  }

  /**
   * `s.split(sep)` with an explicit one-character separator: every piece between
   * two separators, empty pieces included, so there is always at least one.
   */
  function Split(s: string, sep: char): (parts: seq<string>)
    ensures |parts| >= 1
    ensures forall i :: 0 <= i < |parts| ==> sep !in parts[i]
    ensures Join(parts, sep) == s
    decreases |s|
  {
    if sep !in s then [s]
    else
      var i := IndexOf(s, sep);
      var rest := Split(s[i + 1..], sep);
      assert s == s[..i] + [sep] + s[i + 1..];
      assert ([s[..i]] + rest)[1..] == rest;
      [s[..i]] + rest
  }

  /** Splitting undoes joining pieces that do not hold the separator. */
  lemma {:induction false} SplitJoin(parts: seq<string>, sep: char)
    requires |parts| >= 1
    requires forall i :: 0 <= i < |parts| ==> sep !in parts[i]
    ensures Split(Join(parts, sep), sep) == parts
  {
    if |parts| > 1 {
      var s := Join(parts, sep);
      var p := parts[0];
      assert s == p + [sep] + Join(parts[1..], sep);
      assert s[|p|] == sep;
      assert s[..|p|] == p;
      var i := IndexOf(s, sep);
      assert i == |p|;
      assert s[i + 1..] == Join(parts[1..], sep);
      SplitJoin(parts[1..], sep);
    }
  }

  /** Two separator-free pieces joined by the separator split back into them. */
  lemma SplitTwo(a: string, b: string, sep: char)
    requires sep !in a && sep !in b
    ensures sep in a + [sep] + b
    ensures Split(a + [sep] + b, sep) == [a, b]
  {
    var part := a + [sep] + b;
    assert part == Join([a, b], sep);
    SplitJoin([a, b], sep);
    assert part[|a|] == sep;
  }

  /** Three separator-free pieces joined by the separator split back into them. */
  lemma SplitThree(a: string, b: string, c: string, sep: char)
    requires sep !in a && sep !in b && sep !in c
    ensures Split(a + [sep] + b + [sep] + c, sep) == [a, b, c]
  {
    assert Join([b, c], sep) == b + [sep] + c;
    assert Join([a, b, c], sep) == a + [sep] + (b + [sep] + c);
    assert a + [sep] + b + [sep] + c == a + [sep] + (b + [sep] + c);
    SplitJoin([a, b, c], sep);
  }

  /** A character that is neither a digit nor a minus sign does not occur in `str(i)`. */
  lemma NotInIntToString(i: int, c: char)
    requires c != '-' && !IsDigit(c)
    ensures c !in IntToString(i)
  {
    var d := NatToString(if i < 0 then -i else i);
    if i < 0 {
      assert IntToString(i) == "-" + d;
    }
    assert c !in d;
  }

  /** There is one more piece than there are separators in the string. */
  lemma {:induction false} SplitCount(s: string, sep: char)
    ensures |Split(s, sep)| == multiset(s)[sep] + 1
    decreases |s|
  {
    if sep in s {
      var i := IndexOf(s, sep);
      assert s == s[..i] + [sep] + s[i + 1..];
      assert multiset(s[..i])[sep] == 0;
      SplitCount(s[i + 1..], sep);
    } else {
      assert multiset(s)[sep] == 0;
    }
  }
}
