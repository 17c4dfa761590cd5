/** The JavaScript string operations the JavaScript side relies on, restricted
    to what it uses them for: template-literal rendering of integers,
    `String.prototype.split` with a one-character separator, and
    `parseInt(d, 10)`. */
module JsText {

  import opened Common

  predicate IsDigit(c: char) {
    '0' <= c <= '9'
  }

  function DigitChar(d: nat): (c: char)
    requires d < 10
    ensures IsDigit(c)
  {
    ('0' as int + d) as char
  }

  function DigitValue(c: char): (d: nat)
    requires IsDigit(c)
    ensures d < 10 && DigitChar(d) == c
    ensures forall e :: 0 <= e < 10 && DigitChar(e) == c ==> e == d
  {
    (c as int - '0' as int) as nat
  }

  /** The decimal digits of `n`, most significant first, without leading zeros. */
  function Digits(n: nat): (s: string)
    ensures |s| >= 1 && forall k :: 0 <= k < |s| ==> IsDigit(s[k])
    ensures |s| > 1 ==> s[0] != '0'
    decreases n
  {
    if n < 10 then [DigitChar(n)] else Digits(n / 10) + [DigitChar(n % 10)]
  }

  /** `${n}` for an integer-valued number. */
  function DecimalString(n: int): (s: string)
    ensures |s| >= 1
    ensures n >= 0 ==> s == Digits(n)
    ensures n < 0 ==> s == "-" + Digits(-n)
    ensures '.' !in s
  {
    if n < 0 then "-" + Digits(-n) else Digits(n)
  }

  /** The value of a string of digits. */
  function DigitsValue(s: string): nat
    requires forall k :: 0 <= k < |s| ==> IsDigit(s[k])
    decreases |s|
  {
    if s == [] then 0 else 10 * DigitsValue(s[..|s| - 1]) + DigitValue(s[|s| - 1])
  }

  /** The longest prefix of `s` made of digits. */
  function DigitPrefix(s: string): (p: string)
    ensures |p| <= |s| && p == s[..|p|]
    ensures forall k :: 0 <= k < |p| ==> IsDigit(p[k])
    ensures |p| < |s| ==> !IsDigit(s[|p|])
    decreases |s|
  {
    if s == [] || !IsDigit(s[0]) then [] else [s[0]] + DigitPrefix(s[1..])
  }

  /** `parseInt(s, 10)`: an optional sign and the leading run of digits;
      `None` is NaN (no digit where the number should start). */
  function ParseInt(s: string): (r: Option<int>)
    ensures r.None? <==> DigitPrefix(if s != [] && (s[0] == '-' || s[0] == '+') then s[1..] else s) == []
  {
    var negative := s != [] && s[0] == '-';
    var body := if s != [] && (s[0] == '-' || s[0] == '+') then s[1..] else s;
    var digits := DigitPrefix(body);
    if digits == [] then None
    else
      var value: int := DigitsValue(digits);
      Some(if negative then -value else value)
  }

  lemma {:induction false} DigitsValueOfDigits(n: nat)
    ensures DigitsValue(Digits(n)) == n
    decreases n
  {
    var s := Digits(n);
    if n < 10 {
      assert s == [DigitChar(n)] && s[..0] == [];
      assert DigitsValue(s) == DigitValue(s[0]);
    } else {
      DigitsValueOfDigits(n / 10);
      assert s[..|s| - 1] == Digits(n / 10);
      assert DigitValue(s[|s| - 1]) == n % 10;
    }
  }

  lemma {:induction false} DigitPrefixOfDigits(s: string)
    requires forall k :: 0 <= k < |s| ==> IsDigit(s[k])
    ensures DigitPrefix(s) == s
    decreases |s|
  {
    if s != [] {
      DigitPrefixOfDigits(s[1..]);
      assert [s[0]] + s[1..] == s;
    }
  }

  lemma ParseIntOfDigits(m: nat)
    ensures ParseInt(Digits(m)) == Some(m)
  {
    var d := Digits(m);
    DigitsValueOfDigits(m);
    DigitPrefixOfDigits(d);
    assert IsDigit(d[0]);
  }

  /** `parseInt` reads back every integer it is given in decimal. */
  lemma ParseIntOfDecimal(n: int)
    ensures ParseInt(DecimalString(n)) == Some(n)
  {
    if n < 0 {
      ParseIntOfNegative(-n);
    } else {
      ParseIntOfDigits(n);
    }
  }

  lemma ParseIntOfNegative(m: nat)
    ensures ParseInt("-" + Digits(m)) == Some(-(m as int))
  {
    var d := Digits(m);
    var s := "-" + d;
    assert s[0] == '-' && s[1..] == d;
    DigitPrefixOfDigits(d);
    DigitsValueOfDigits(m);
  }

  /** A string of digits followed by a non-digit: `parseInt` stops there. */
  lemma {:induction false} DigitPrefixStops(d: string, rest: string)
    requires forall k :: 0 <= k < |d| ==> IsDigit(d[k])
    requires rest != [] && !IsDigit(rest[0])
    ensures DigitPrefix(d + rest) == d
    decreases |d|
  {
    if d == [] {
      assert d + rest == rest;
    } else {
      DigitPrefixStops(d[1..], rest);
      assert (d + rest)[1..] == d[1..] + rest;
      assert [d[0]] + d[1..] == d;
    }
  }

  /** `parseInt` reads a non-negative integer back from the front of a
      string where a non-digit follows its decimal digits. */
  lemma ParseIntOfDecimalThen(n: nat, rest: string)
    requires rest != [] && !IsDigit(rest[0])
    ensures ParseInt(Digits(n) + rest) == Some(n)
  {
    var d := Digits(n);
    var t := d + rest;
    assert t[0] == d[0] && IsDigit(t[0]);
    DigitPrefixStops(d, rest);
    DigitsValueOfDigits(n);
  }

  /** `s.split(sep)`: the pieces between separators, in order; a string
      without the separator is one piece. */
  function Split(s: string, sep: char): (parts: seq<string>)
    ensures |parts| >= 1
    ensures forall k :: 0 <= k < |parts| ==> sep !in parts[k]
    decreases |s|
  {
    if s == [] then [[]]
    else
      var rest := Split(s[1..], sep);
      if s[0] == sep then [[]] + rest
      else
        assert forall k :: 1 <= k < |rest| ==> sep !in rest[k];
        [[s[0]] + rest[0]] + rest[1..]
  }

  /** `parts.join(sep)`. */
  function Join(parts: seq<string>, sep: char): string
    requires |parts| >= 1
    decreases |parts|
  {
    if |parts| == 1 then parts[0] else parts[0] + [sep] + Join(parts[1..], sep)
  }

  /** Putting a character in front of the first piece puts it in front of
      the joined string. */
  lemma JoinCons(c: char, parts: seq<string>, sep: char)
    requires |parts| >= 1
    ensures Join([[c] + parts[0]] + parts[1..], sep) == [c] + Join(parts, sep)
  {
    var q := [[c] + parts[0]] + parts[1..];
    assert q[0] == [c] + parts[0] && q[1..] == parts[1..];
    if |parts| > 1 {
      assert Join(q, sep) == ([c] + parts[0]) + [sep] + Join(parts[1..], sep);
    }
  }

  /** Splitting loses nothing: joining the pieces with the separator gives the
      string back. */
  lemma {:induction false} JoinSplit(s: string, sep: char)
    ensures Join(Split(s, sep), sep) == s
    decreases |s|
  {
    if s != [] {
      JoinSplit(s[1..], sep);
      var rest := Split(s[1..], sep);
      if s[0] == sep {
        var parts := [[]] + rest;
        assert parts[0] == [] && parts[1..] == rest;
        assert Join(parts, sep) == [] + [sep] + Join(rest, sep);
      } else {
        JoinCons(s[0], rest, sep);
      }
      assert s == [s[0]] + s[1..];
    }
  }

  /** A leading piece without the separator is split off as it is. */
  lemma {:induction false} SplitAfterPiece(piece: string, sep: char, rest: string)
    requires sep !in piece
    ensures Split(piece + [sep] + rest, sep) == [piece] + Split(rest, sep)
    decreases |piece|
  {
    var s := piece + [sep] + rest;
    if piece == [] {
      assert s[0] == sep && s[1..] == rest;
    } else {
      SplitAfterPiece(piece[1..], sep, rest);
      assert s[0] == piece[0] && s[1..] == piece[1..] + [sep] + rest;
      var tail := Split(s[1..], sep);
      assert tail == [piece[1..]] + Split(rest, sep);
      assert [piece[0]] + piece[1..] == piece;
    }
  }
}
