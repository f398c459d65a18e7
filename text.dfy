/**
 * The handful of Python string operations the core relies on, written out:
 * `str.startswith`, `str(int)`, `int(str)`, `str.strip`, `str.split`/`str.join`
 * on one separator character, `str.lower` on ASCII, `%0Nd` padding, UTF-8
 * encoding and `hexdigest()`.
 */
module Text {
  import opened Prelude

  predicate IsDigit(c: char) { '0' <= c <= '9' }

  predicate IsLowerHex(c: char) { IsDigit(c) || 'a' <= c <= 'f' }

  predicate AllDigits(s: string) { forall i :: 0 <= i < |s| ==> IsDigit(s[i]) }

  /** `s.startswith(p)` */
  predicate StartsWith(s: string, p: string) { |p| <= |s| && s[..|p|] == p }

  function Pow10(k: nat): (p: nat)
    ensures p >= 1
  {
    if k == 0 then 1 else 10 * Pow10(k - 1)
  }

  // ---------------------------------------------------------------- str(int)

  function DigitChar(d: int): (c: char)
    requires 0 <= d < 10
    ensures IsDigit(c)
  {
    (48 + d) as char
  }

  function DigitValue(c: char): (d: nat)
    requires IsDigit(c)
    ensures d < 10 && DigitChar(d) == c
  {
    c as int - 48
  }

  /** `str(n)` for a non-negative integer: decimal digits, no leading zero. */
  function NatToString(n: nat): (s: string)
    ensures 1 <= |s| && AllDigits(s)
    ensures |s| > 1 ==> s[0] != '0'
  {
    if n < 10 then [DigitChar(n)] else NatToString(n / 10) + [DigitChar(n % 10)]
  }

  /** `str(i)` for any integer. */
  function IntToString(i: int): (s: string)
    ensures i >= 0 ==> AllDigits(s)
    ensures i < 0 ==> |s| > 1 && s[0] == '-'
  {
    if i < 0 then "-" + NatToString(-i) else NatToString(i)
  }

  /** The number a run of decimal digits denotes, most significant first. */
  function DigitsValue(s: string): nat
    requires AllDigits(s)
  {
    if s == [] then 0 else DigitsValue(s[..|s| - 1]) * 10 + DigitValue(s[|s| - 1])
  }

  lemma {:induction false} DigitsValueOfNatToString(n: nat)
    ensures DigitsValue(NatToString(n)) == n
  {
    if n >= 10 {
      var s := NatToString(n);
      assert s[..|s| - 1] == NatToString(n / 10);
      DigitsValueOfNatToString(n / 10);
    }
  }

  lemma NatToStringInjective(a: nat, b: nat)
    requires NatToString(a) == NatToString(b)
    ensures a == b
  {
    DigitsValueOfNatToString(a);
    DigitsValueOfNatToString(b);
  }

  lemma {:induction false} NatToStringLength(n: nat, k: nat)
    requires 1 <= k && n < Pow10(k)
    ensures |NatToString(n)| <= k
  {
    if n >= 10 {
      assert k >= 2;
      assert n / 10 < Pow10(k - 1);
      NatToStringLength(n / 10, k - 1);
    }
  }

  lemma {:induction false} DigitsValueAppend(a: string, b: string)
    requires AllDigits(a) && AllDigits(b)
    ensures AllDigits(a + b)
    ensures DigitsValue(a + b) == DigitsValue(a) * Pow10(|b|) + DigitsValue(b)
  {
    if b == [] {
      assert a + b == a;
    } else {
      var ab := a + b;
      var b' := b[..|b| - 1];
      assert ab[..|ab| - 1] == a + b';
      assert ab[|ab| - 1] == b[|b| - 1];
      DigitsValueAppend(a, b');
      assert DigitsValue(ab) == DigitsValue(a + b') * 10 + DigitValue(b[|b| - 1]);
      assert DigitsValue(b) == DigitsValue(b') * 10 + DigitValue(b[|b| - 1]);
      AppendStep(DigitsValue(a), Pow10(|b'|), DigitsValue(b'), DigitValue(b[|b| - 1]),
                 DigitsValue(ab), Pow10(|b|), DigitsValue(b));
    }
  }

  lemma AppendStep(x: int, p: int, y: int, d: int, whole: int, q: int, tail: int)
    requires whole == (x * p + y) * 10 + d && q == p * 10 && tail == y * 10 + d
    ensures whole == x * q + tail
  {
  }

  lemma {:induction false} DigitsValueOfZeros(k: nat)
    ensures AllDigits(seq(k, _ => '0'))
    ensures DigitsValue(seq(k, _ => '0')) == 0
  {
    if k > 0 {
      var z := seq(k, _ => '0');
      assert z[..k - 1] == seq(k - 1, _ => '0');
      DigitsValueOfZeros(k - 1);
    }
  }

  /** `"%0*d" % (width, n)` for a non-negative n: left-padded with zeros, never truncated. */
  function ZeroPad(s: string, width: nat): (r: string)
    ensures |r| == if |s| >= width then |s| else width
    ensures r[|r| - |s|..] == s
    ensures forall i :: 0 <= i < |r| - |s| ==> r[i] == '0'
  {
    if |s| >= width then s else seq(width - |s|, _ => '0') + s
  }

  lemma ZeroPadValue(n: nat, width: nat)
    ensures AllDigits(ZeroPad(NatToString(n), width))
    ensures DigitsValue(ZeroPad(NatToString(n), width)) == n
  {
    DigitsValueOfNatToString(n);
    ZeroPadDigits(NatToString(n), width);
  }

  /** Leading zeros do not change the value of a run of digits. */
  lemma ZeroPadDigits(s: string, width: nat)
    requires AllDigits(s)
    ensures AllDigits(ZeroPad(s, width))
    ensures DigitsValue(ZeroPad(s, width)) == DigitsValue(s)
  {
    if |s| < width {
      var z := seq(width - |s|, _ => '0');
      assert ZeroPad(s, width) == z + s;
      DigitsValueOfZeros(width - |s|);
      DigitsValueAppend(z, s);
      ZeroTimes(DigitsValue(z), Pow10(|s|));
    }
  }

  lemma ZeroTimes(x: int, y: int)
    requires x == 0
    ensures x * y == 0
  {
  }

  // ---------------------------------------------------------------- str.strip

  /** `c.isspace()` for a Python `str` character. */
  predicate IsSpace(c: char)
  {
    c == ' ' || ('\t' <= c <= '\r') || IsSeparator(c) || c == '\U{85}' || c == '\U{a0}'
    || c == '\U{1680}' || ('\U{2000}' <= c <= '\U{200a}') || c == '\U{2028}' || c == '\U{2029}'
    || c == '\U{202f}' || c == '\U{205f}' || c == '\U{3000}'
  }

  /** The information separators U+001C to U+001F: whitespace to `str.isspace`, but not to `int()`. */
  predicate IsSeparator(c: char)
  {
    '\U{1c}' <= c <= '\U{1f}'
  }

  function TrimLeft(s: string): (r: string)
    ensures |r| <= |s| && r == s[|s| - |r|..]
    ensures r == [] || !IsSpace(r[0])
  {
    if s != [] && IsSpace(s[0]) then TrimLeft(s[1..]) else s
  }

  function TrimRight(s: string): (r: string)
    ensures |r| <= |s| && r == s[..|r|]
    ensures r == [] || !IsSpace(r[|r| - 1])
  {
    if s != [] && IsSpace(s[|s| - 1]) then TrimRight(s[..|s| - 1]) else s
  }

  /** Everything `TrimLeft` removes is whitespace. */
  lemma {:induction false} TrimLeftSpaces(s: string)
    ensures forall k :: 0 <= k < |s| - |TrimLeft(s)| ==> IsSpace(s[k])
  {
    if s != [] && IsSpace(s[0]) {
      TrimLeftSpaces(s[1..]);
      forall k | 0 <= k < |s| - |TrimLeft(s)| ensures IsSpace(s[k]) {
        if k > 0 {
          assert s[k] == s[1..][k - 1];
        }
      }
    }
  }

  /** Everything `TrimRight` removes is whitespace. */
  lemma {:induction false} TrimRightSpaces(s: string)
    ensures forall k :: |TrimRight(s)| <= k < |s| ==> IsSpace(s[k])
  {
    if s != [] && IsSpace(s[|s| - 1]) {
      TrimRightSpaces(s[..|s| - 1]);
      forall k | |TrimRight(s)| <= k < |s| ensures IsSpace(s[k]) {
        if k < |s| - 1 {
          assert s[k] == s[..|s| - 1][k];
        }
      }
    }
  }

  /** `s.strip()`: whitespace removed from both ends. */
  function Strip(s: string): (r: string)
    ensures r == [] || (!IsSpace(r[0]) && !IsSpace(r[|r| - 1]))
    ensures |r| <= |s|
  {
    TrimRight(TrimLeft(s))
  }

  /** What `strip` returns is a slice of its input with only whitespace on either side. */
  lemma StripSlice(s: string)
    ensures var i, r := |s| - |TrimLeft(s)|, Strip(s);
            && i + |r| <= |s| && r == s[i..i + |r|]
            && (forall k :: 0 <= k < i ==> IsSpace(s[k]))
            && (forall k :: i + |r| <= k < |s| ==> IsSpace(s[k]))
  {
    TrimLeftSpaces(s);
    StripIsSlice(s);
    StripRightSpaces(s);
  }

  lemma StripIsSlice(s: string)
    ensures var i, r := |s| - |TrimLeft(s)|, Strip(s);
            i + |r| <= |s| && r == s[i..i + |r|]
  {
    var l := TrimLeft(s);
    var i := |s| - |l|;
    var r := TrimRight(l);
    assert l == s[i..];
    assert r == l[..|r|];
  }

  lemma StripRightSpaces(s: string)
    ensures forall k :: |s| - |TrimLeft(s)| + |Strip(s)| <= k < |s| ==> IsSpace(s[k])
  {
    var l := TrimLeft(s);
    var i := |s| - |l|;
    TrimRightSpaces(l);
    forall k | i + |Strip(s)| <= k < |s| ensures IsSpace(s[k]) {
      assert s[k] == l[k - i];
    }
  }

  lemma StripEmptyIffAllSpace(s: string)
    ensures Strip(s) == [] <==> forall k :: 0 <= k < |s| ==> IsSpace(s[k])
  {
    StripSlice(s);
    if forall k :: 0 <= k < |s| ==> IsSpace(s[k]) {
      assert TrimLeft(s) == [];
    }
  }

  lemma StripNoSpaceEnds(s: string)
    requires s != [] && !IsSpace(s[0]) && !IsSpace(s[|s| - 1])
    ensures Strip(s) == s
  {
  }

  // ---------------------------------------------------------------- int(str)

  /** The digit part Python's `int()` accepts in base 10: `[0-9]+(_[0-9]+)*`. */
  predicate IsDecimalLiteral(b: string)
  {
    && |b| >= 1 && IsDigit(b[0]) && IsDigit(b[|b| - 1])
    && forall i :: 0 <= i < |b| ==> IsDigit(b[i]) || (b[i] == '_' && i + 1 < |b| && IsDigit(b[i + 1]))
  }

  lemma DecimalLiteralChars(b: string)
    requires IsDecimalLiteral(b)
    ensures forall i :: 0 <= i < |b| ==> IsDigit(b[i]) || b[i] == '_'
  {
    forall i | 0 <= i < |b| ensures IsDigit(b[i]) || b[i] == '_' {
      assert IsDigit(b[i]) || (b[i] == '_' && i + 1 < |b| && IsDigit(b[i + 1]));
    }
  }

  function DropUnderscores(b: string): (d: string)
    ensures (forall i :: 0 <= i < |b| ==> IsDigit(b[i]) || b[i] == '_') ==> AllDigits(d)
    ensures AllDigits(b) ==> d == b
  {
    if b == [] then [] else if b[0] == '_' then DropUnderscores(b[1..]) else [b[0]] + DropUnderscores(b[1..])
  }

  /**
   * `int(s)` for a `str` s: surrounding whitespace, an optional sign, then digits
   * with single underscores between them; `None` where Python raises ValueError.
   * Below U+007F `int()` skips only space and '\t' to '\r', so an information
   * separator fails the parse wherever it stands: it is neither whitespace to
   * `int()` nor part of a number.
   */
  function ParseInt(s: string): Option<int>
  {
    if exists k :: 0 <= k < |s| && IsSeparator(s[k]) then None
    else ParseStripped(Strip(s))
  }

  /** `int()` once the surrounding whitespace is gone. */
  function ParseStripped(t: string): Option<int>
  {
    var signed := |t| > 0 && (t[0] == '-' || t[0] == '+');
    var body := if signed then t[1..] else t;
    if IsDecimalLiteral(body) then
      DecimalLiteralChars(body);
      var v: int := DigitsValue(DropUnderscores(body));
      Some(if signed && t[0] == '-' then -v else v)
    else
      None
  }

  /** A string without a single decimal digit never parses, whatever else it holds. */
  lemma ParseIntNeedsDigit(s: string)
    requires forall k :: 0 <= k < |s| ==> !IsDigit(s[k])
    ensures ParseInt(s) == None
  {
    var t := Strip(s);
    var i := |s| - |TrimLeft(s)|;
    StripIsSlice(s);
    NoDigitInSlice(s, i, i + |t|);
    ParseStrippedNoDigit(t);
  }

  lemma NoDigitInSlice(s: string, i: nat, j: nat)
    requires i <= j <= |s|
    requires forall k :: 0 <= k < |s| ==> !IsDigit(s[k])
    ensures forall k :: 0 <= k < j - i ==> !IsDigit(s[i..j][k])
  {
    forall k | 0 <= k < j - i ensures !IsDigit(s[i..j][k]) {
      assert s[i..j][k] == s[i + k];
    }
  }

  lemma ParseStrippedNoDigit(t: string)
    requires forall k :: 0 <= k < |t| ==> !IsDigit(t[k])
    ensures ParseStripped(t) == None
  {
    if |t| > 1 {
      assert t[1..][0] == t[1];
    }
  }

  /** A string that starts with a letter or other non-sign, non-digit, non-space character never parses. */
  lemma ParseIntBadFirst(s: string)
    requires |s| >= 1 && !IsSpace(s[0]) && !IsDigit(s[0]) && s[0] != '-' && s[0] != '+'
    ensures ParseInt(s) == None
  {
    assert TrimLeft(s) == s;
    var t := TrimRight(s);
    if t != [] {
      assert t[0] == s[0];
    }
  }

  /**
   * A string holding an information separator never parses as an int, although
   * `strip` removes the separator when it stands at either end: "\U{1c}5".strip()
   * is "5", yet `int("\U{1c}5")` raises.
   */
  lemma SeparatorFailsInt(s: string, k: nat)
    requires k < |s| && IsSeparator(s[k])
    ensures IsSpace(s[k])
    ensures ParseInt(s) == None
  {
  }

  /** A run of digits, with nothing around it, parses as its digit value. */
  lemma ParseDigits(s: string, n: nat)
    requires |s| >= 1 && AllDigits(s) && DigitsValue(s) == n
    ensures ParseInt(s) == Some(n)
  {
    ParseIntNoSpaceEnds(s);
    DigitLiteral(s);
  }

  lemma ParseIntOfNatToString(n: nat)
    ensures ParseInt(NatToString(n)) == Some(n)
  {
    DigitsValueOfNatToString(n);
    ParseDigits(NatToString(n), n);
  }

  /** A minus sign before a run of digits parses as the negated digit value. */
  lemma ParseStrippedNegative(t: string)
    requires |t| >= 2 && t[0] == '-' && AllDigits(t[1..])
    ensures ParseStripped(t) == Some(-(DigitsValue(t[1..]) as int))
  {
    DigitLiteral(t[1..]);
  }

  lemma DigitLiteral(d: string)
    requires |d| >= 1 && AllDigits(d)
    ensures IsDecimalLiteral(d) && DropUnderscores(d) == d
  {
  }

  /** `int()` of a string with no whitespace at either end reads the string as it is. */
  lemma ParseIntNoSpaceEnds(s: string)
    requires s != [] && !IsSpace(s[0]) && !IsSpace(s[|s| - 1])
    requires forall k :: 0 <= k < |s| ==> !IsSeparator(s[k])
    ensures ParseInt(s) == ParseStripped(s)
  {
    StripNoSpaceEnds(s);
  }

  /** A minus sign followed by digits, with nothing around it, parses as the negated digit value. */
  lemma ParseNegativeDigits(s: string, n: nat)
    requires |s| >= 2 && s[0] == '-' && AllDigits(s[1..]) && DigitsValue(s[1..]) == n
    ensures ParseInt(s) == Some(-(n as int))
  {
    assert s[|s| - 1] == s[1..][|s| - 2];
    ParseIntNoSpaceEnds(s);
    ParseStrippedNegative(s);
  }

  lemma ParseIntOfNegativeInt(i: int)
    requires i < 0
    ensures ParseInt(IntToString(i)) == Some(i)
  {
    var n: nat := -i;
    var s := IntToString(i);
    assert s[1..] == NatToString(n);
    DigitsValueOfNatToString(n);
    ParseNegativeDigits(s, n);
  }

  /** `int(str(i)) == i` for every integer, negative ones included. */
  lemma ParseIntOfIntToString(i: int)
    ensures ParseInt(IntToString(i)) == Some(i)
  {
    if i < 0 {
      ParseIntOfNegativeInt(i);
    } else {
      ParseIntOfNatToString(i);
    }
  }

  // ---------------------------------------------------------------- split / join

  function IndexOf(s: string, c: char): (i: nat)
    requires c in s
    ensures i < |s| && s[i] == c && c !in s[..i]
  {
    if s[0] == c then 0 else 1 + IndexOf(s[1..], c)
  }

  /** `s.split(sep)` for a one-character separator: always at least one part. */
  function Split(s: string, sep: char): (parts: seq<string>)
    ensures |parts| >= 1
    ensures forall i :: 0 <= i < |parts| ==> sep !in parts[i]
    decreases |s|
  {
    if sep in s then
      var i := IndexOf(s, sep);
      [s[..i]] + Split(s[i + 1..], sep)
    else
      [s]
  }

  /** `sep.join(parts)` */
  function Join(parts: seq<string>, sep: char): string
  {
    if |parts| == 0 then "" else if |parts| == 1 then parts[0] else parts[0] + [sep] + Join(parts[1..], sep)
  }

  lemma IndexOfAfterSepFreePrefix(a: string, sep: char, b: string)
    requires sep !in a
    ensures sep in a + [sep] + b && IndexOf(a + [sep] + b, sep) == |a|
  {
    var s := a + [sep] + b;
    assert s[|a|] == sep;
  }

  /** `sep.join([a, b, c])` written out. */
  lemma Join3(a: string, b: string, c: string, sep: char)
    ensures Join([a, b, c], sep) == a + [sep] + b + [sep] + c
  {
    assert [a, b, c][1..] == [b, c];
    assert [b, c][1..] == [c];
    assert Join([b, c], sep) == b + [sep] + c;
    assert a + [sep] + (b + [sep] + c) == a + [sep] + b + [sep] + c;
  }

  lemma {:induction false} SplitJoin(parts: seq<string>, sep: char)
    requires |parts| >= 1
    requires forall i :: 0 <= i < |parts| ==> sep !in parts[i]
    ensures Split(Join(parts, sep), sep) == parts
  {
    if |parts| > 1 {
      var rest := Join(parts[1..], sep);
      var s := parts[0] + [sep] + rest;
      IndexOfAfterSepFreePrefix(parts[0], sep, rest);
      assert s[..|parts[0]|] == parts[0];
      assert s[|parts[0]| + 1..] == rest;
      SplitJoin(parts[1..], sep);
    }
  }

  /** Three separator-free fields joined by the separator split back into those fields. */
  lemma SplitThree(a: string, b: string, c: string, sep: char)
    requires sep !in a && sep !in b && sep !in c
    ensures Split(a + [sep] + b + [sep] + c, sep) == [a, b, c]
  {
    Join3(a, b, c, sep);
    SplitJoin([a, b, c], sep);
  }

  lemma {:induction false} JoinSplit(s: string, sep: char)
    ensures Join(Split(s, sep), sep) == s
    decreases |s|
  {
    if sep in s {
      var i := IndexOf(s, sep);
      var rest := Split(s[i + 1..], sep);
      JoinSplit(s[i + 1..], sep);
      JoinCons(s[..i], rest, sep);
      assert s == s[..i] + [sep] + s[i + 1..];
    }
  }

  lemma JoinCons(head: string, rest: seq<string>, sep: char)
    requires |rest| >= 1
    ensures Join([head] + rest, sep) == head + [sep] + Join(rest, sep)
  {
    assert ([head] + rest)[1..] == rest;
  }

  // ---------------------------------------------------------------- lower, UTF-8, hex

  function LowerChar(c: char): char
  {
    if 'A' <= c <= 'Z' then (c as int + 32) as char else c
  }

  /** `s.lower()` restricted to ASCII letters. */
  function Lower(s: string): string
  {
    seq(|s|, i requires 0 <= i < |s| => LowerChar(s[i]))
  }

  /** The UTF-8 encoding of one Unicode scalar value (RFC 3629, section 3). */
  function EncodeChar(c: char): (b: seq<byte>)
    ensures 1 <= |b| <= 4
    ensures |b| == 1 <==> c as int < 0x80
  {
    var n := c as int;
    if n < 0x80 then [n as byte]
    else if n < 0x800 then [(0xC0 + n / 64) as byte, (0x80 + n % 64) as byte]
    else if n < 0x10000 then
      [(0xE0 + n / 4096) as byte, (0x80 + (n / 64) % 64) as byte, (0x80 + n % 64) as byte]
    else
      [(0xF0 + n / 262144) as byte, (0x80 + (n / 4096) % 64) as byte,
       (0x80 + (n / 64) % 64) as byte, (0x80 + n % 64) as byte]
  }

  /** `s.encode("utf-8")` */
  function Utf8(s: string): (b: seq<byte>)
    ensures |s| <= |b| <= 4 * |s|
  {
    if s == [] then [] else EncodeChar(s[0]) + Utf8(s[1..])
  }

  lemma {:induction false} Utf8Concat(a: string, b: string)
    ensures Utf8(a + b) == Utf8(a) + Utf8(b)
  {
    if a == [] {
      assert a + b == b;
    } else {
      assert (a + b)[0] == a[0] && (a + b)[1..] == a[1..] + b;
      Utf8Concat(a[1..], b);
      var e := EncodeChar(a[0]);
      assert Utf8(a + b) == e + (Utf8(a[1..]) + Utf8(b));
      assert e + (Utf8(a[1..]) + Utf8(b)) == (e + Utf8(a[1..])) + Utf8(b);
    }
  }

  lemma {:induction false} Utf8OfAscii(s: string)
    requires forall i :: 0 <= i < |s| ==> s[i] as int < 0x80
    ensures |Utf8(s)| == |s|
    ensures forall i :: 0 <= i < |s| ==> Utf8(s)[i] as int == s[i] as int
  {
    if s != [] {
      Utf8OfAscii(s[1..]);
    }
  }

  function HexChar(v: int): (c: char)
    requires 0 <= v < 16
    ensures IsLowerHex(c)
  {
    if v < 10 then (48 + v) as char else (87 + v) as char
  }

  /** `hexdigest()`: two lower-case hexadecimal characters per byte, high nibble first. */
  function HexDigest(d: seq<byte>): (h: string)
    ensures |h| == 2 * |d|
    ensures forall i :: 0 <= i < |h| ==> IsLowerHex(h[i])
  {
    if d == [] then [] else [HexChar(d[0] as int / 16), HexChar(d[0] as int % 16)] + HexDigest(d[1..])
  }
}
