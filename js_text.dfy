/** The pieces of JavaScript's string and number semantics that the components rely on:
    `String.prototype.split` with a one-character separator, `trim`, ASCII `toLowerCase`,
    `includes`, `startsWith`, the global `parseInt` (ECMAScript section 19.2.5) and
    `Number.prototype.toString` on integers. */
module JsText {

  /** A JavaScript number as these components see it: an integer, or NaN, which is what
      `parseInt` returns when no digit follows the optional sign. */
  datatype JsNumber = Num(value: int) | NaN

  // ---------------------------------------------------------------------------------
  // Whitespace and trim

  /** ECMAScript WhiteSpace and LineTerminator code points: what `trim` removes and what
      `parseInt` skips before the number. */
  predicate IsSpace(c: char) {
    || c == '\t' || c == '\n' || c == '\U{000B}' || c == '\U{000C}' || c == '\r' || c == ' '
    || c == '\U{00A0}' || c == '\U{1680}' || ('\U{2000}' <= c <= '\U{200A}')
    || c == '\U{2028}' || c == '\U{2029}' || c == '\U{202F}' || c == '\U{205F}'
    || c == '\U{3000}' || c == '\U{FEFF}'
  }

  /** Every character of `s` is whitespace (the empty string included). */
  predicate IsBlank(s: string) {
    forall i :: 0 <= i < |s| ==> IsSpace(s[i])
  }

  /** `s.trimStart()`: the suffix of `s` after its leading whitespace. */
  function TrimStart(s: string): (r: string)
    ensures |r| <= |s| && r == s[|s| - |r|..]
    ensures forall i :: 0 <= i < |s| - |r| ==> IsSpace(s[i])
    ensures r != [] ==> !IsSpace(r[0])
  {
    if s != [] && IsSpace(s[0]) then TrimStart(s[1..]) else s
  }

  /** `s.trimEnd()`: the prefix of `s` before its trailing whitespace. */
  function TrimEnd(s: string): (r: string)
    ensures |r| <= |s| && r == s[..|r|]
    ensures forall i :: |r| <= i < |s| ==> IsSpace(s[i])
    ensures r != [] ==> !IsSpace(r[|r| - 1])
  {
    if s != [] && IsSpace(s[|s| - 1]) then TrimEnd(s[..|s| - 1]) else s
  }

  /** `s.trim()`. */
  function Trim(s: string): string {
    TrimEnd(TrimStart(s))
  }

  /** `!s.trim()` holds exactly for the strings made of whitespace only. */
  lemma TrimEmptyIffBlank(s: string)
    ensures Trim(s) == [] <==> IsBlank(s)
  {
    var t := TrimStart(s);
    if t != [] {
      assert !IsSpace(t[0]);
      assert !IsSpace(s[|s| - |t|]);
    }
  }

  // ---------------------------------------------------------------------------------
  // split and join on one separator character

  /** Number of occurrences of `c` in `s`. */
  function Count(s: string, c: char): nat {
    if s == [] then 0 else (if s[0] == c then 1 else 0) + Count(s[1..], c)
  }

  /** `s.split(sep)` for a one-character separator: the pieces between the separators,
      empty pieces included; the empty string splits into one empty piece. */
  function Split(s: string, sep: char): (r: seq<string>)
    ensures |r| >= 1
  {
    if s == [] then [[]]
    else
      var rest := Split(s[1..], sep);
      if s[0] == sep then [[]] + rest else [[s[0]] + rest[0]] + rest[1..]
  }

  /** `pieces.join(sep)`. */
  function Join(pieces: seq<string>, sep: char): string
    requires |pieces| >= 1
  {
    if |pieces| == 1 then pieces[0] else pieces[0] + [sep] + Join(pieces[1..], sep)
  }

  /** A character that does not occur is counted zero times. */
  lemma {:induction false} CountAbsent(s: string, c: char)
    requires c !in s
    ensures Count(s, c) == 0
  {
    if s != [] {
      assert c !in s[1..];
      CountAbsent(s[1..], c);
    }
  }

  /** Splitting yields one piece more than there are separators. */
  lemma {:induction false} SplitLength(s: string, sep: char)
    ensures |Split(s, sep)| == Count(s, sep) + 1
  {
    if s != [] {
      SplitLength(s[1..], sep);
    }
  }

  /** No piece of a split contains the separator. */
  lemma {:induction false} SplitPiecesFree(s: string, sep: char)
    ensures forall k :: 0 <= k < |Split(s, sep)| ==> sep !in Split(s, sep)[k]
  {
    if s != [] {
      SplitPiecesFree(s[1..], sep);
      var rest := Split(s[1..], sep);
      if s[0] != sep {
        assert forall k :: 1 <= k < |Split(s, sep)| ==> Split(s, sep)[k] == rest[k];
      }
    }
  }

  /** Joining the pieces with the separator gives back the split string. */
  lemma {:induction false} JoinSplit(s: string, sep: char)
    ensures Join(Split(s, sep), sep) == s
  {
    if s != [] {
      var rest := Split(s[1..], sep);
      JoinSplit(s[1..], sep);
      if s[0] == sep {
        assert Split(s, sep)[1..] == rest;
      } else {
        var r := Split(s, sep);
        assert r[1..] == rest[1..];
        if |rest| == 1 {
          assert r == [[s[0]] + rest[0]];
        } else {
          assert Join(rest, sep) == rest[0] + [sep] + Join(rest[1..], sep);
          assert Join(r, sep) == [s[0]] + rest[0] + [sep] + Join(rest[1..], sep);
        }
      }
    }
  }

  /** A separator-free prefix glues onto the first piece of whatever follows it. */
  lemma {:induction false} SplitFreePrefix(a: string, b: string, sep: char)
    requires sep !in a
    ensures Split(a + b, sep) == [a + Split(b, sep)[0]] + Split(b, sep)[1..]
  {
    var sb := Split(b, sep);
    if a != [] {
      SplitFreePrefix(a[1..], b, sep);
      var r := Split(a[1..] + b, sep);
      assert (a + b)[1..] == a[1..] + b;
      SplitOrdinaryFirst(a + b, sep);
      assert [a[0]] + (a[1..] + sb[0]) == a + sb[0];
    } else {
      assert a + b == b;
      assert a + sb[0] == sb[0];
      assert sb == [sb[0]] + sb[1..];
    }
  }

  /** A first character other than the separator starts the first piece. */
  lemma SplitOrdinaryFirst(s: string, sep: char)
    requires s != [] && s[0] != sep
    ensures Split(s, sep) == [[s[0]] + Split(s[1..], sep)[0]] + Split(s[1..], sep)[1..]
  {
  }

  /** Splitting a join of separator-free pieces gives back the pieces. */
  lemma {:induction false} SplitJoin(pieces: seq<string>, sep: char)
    requires |pieces| >= 1
    requires forall k :: 0 <= k < |pieces| ==> sep !in pieces[k]
    ensures Split(Join(pieces, sep), sep) == pieces
  {
    if |pieces| == 1 {
      SplitFreePrefix(pieces[0], [], sep);
      assert pieces[0] + [] == pieces[0];
    } else {
      var tail := Join(pieces[1..], sep);
      var rest := [sep] + tail;
      SplitJoin(pieces[1..], sep);
      assert Join(pieces, sep) == pieces[0] + rest;
      SplitFreePrefix(pieces[0], rest, sep);
      assert rest[0] == sep && rest[1..] == tail;
      var r := Split(rest, sep);
      assert r == [[]] + pieces[1..];
      assert r[0] == [] && r[1..] == pieces[1..];
      assert pieces[0] + r[0] == pieces[0];
      assert pieces == [pieces[0]] + pieces[1..];
    }
  }

  // ---------------------------------------------------------------------------------
  // parseInt and toString

  /** The value of `c` as a digit in radices up to 36; 36 when it is no digit at all. */
  function DigitValue(c: char): nat {
    if '0' <= c <= '9' then c as int - '0' as int
    else if 'a' <= c <= 'z' then c as int - 'a' as int + 10
    else if 'A' <= c <= 'Z' then c as int - 'A' as int + 10
    else 36
  }

  /** Length of the longest prefix of `s` made of radix-`radix` digits. */
  function DigitRun(s: string, radix: nat): (n: nat)
    ensures n <= |s|
    ensures forall i :: 0 <= i < n ==> DigitValue(s[i]) < radix
    ensures n < |s| ==> DigitValue(s[n]) >= radix
  {
    if s == [] || DigitValue(s[0]) >= radix then 0 else 1 + DigitRun(s[1..], radix)
  }

  /** The mathematical value of a digit string, most significant digit first. */
  function DigitsValue(z: string, radix: nat): nat {
    if z == [] then 0 else DigitsValue(z[..|z| - 1], radix) * radix + DigitValue(z[|z| - 1])
  }

  /** `parseInt(s)` with no radix argument: skip leading whitespace, take an optional sign,
      read hexadecimal after a `0x`/`0X` prefix and decimal otherwise, and stop at the
      first character that is not a digit; NaN when no digit was read. */
  function ParseInt(s: string): JsNumber {
    var t := TrimStart(s);
    if t != [] && t[0] == '-' then Negate(ParseUnsigned(t[1..]))
    else if t != [] && t[0] == '+' then ParseUnsigned(t[1..])
    else ParseUnsigned(t)
  }

  /** The number after the sign: hexadecimal after a `0x`/`0X` prefix, decimal otherwise. */
  function ParseUnsigned(u: string): JsNumber {
    if |u| >= 2 && u[0] == '0' && (u[1] == 'x' || u[1] == 'X') then ParseDigits(u[2..], 16)
    else ParseDigits(u, 10)
  }

  /** The value of the longest digit prefix of `d`; NaN when `d` starts with no digit. */
  function ParseDigits(d: string, radix: nat): JsNumber {
    var n := DigitRun(d, radix);
    if n == 0 then NaN else Num(DigitsValue(d[..n], radix))
  }

  /** Unary minus; NaN stays NaN (and -0 is 0 here, which `===` does not tell apart). */
  function Negate(x: JsNumber): JsNumber {
    match x
    case NaN => NaN
    case Num(v) => Num(-v)
  }

  /** The character of decimal digit `d`. */
  function DecimalDigit(d: nat): (c: char)
    requires d < 10
    ensures DigitValue(c) == d
  {
    ('0' as int + d) as char
  }

  /** `n.toString()` for a non-negative integer: its decimal digits, no leading zero. */
  function NatToString(n: nat): (s: string)
    ensures |s| >= 1
    ensures forall i :: 0 <= i < |s| ==> DigitValue(s[i]) < 10
  {
    if n < 10 then [DecimalDigit(n)] else NatToString(n / 10) + [DecimalDigit(n % 10)]
  }

  /** `n.toString()` for an integer. */
  function IntToString(n: int): string {
    if n < 0 then "-" + NatToString(-n) else NatToString(n)
  }

  /** The decimal digits of `n` read back as `n`. */
  lemma {:induction false} DigitsValueNatToString(n: nat)
    ensures DigitsValue(NatToString(n), 10) == n
  {
    var s := NatToString(n);
    if n >= 10 {
      DigitsValueNatToString(n / 10);
      assert s[..|s| - 1] == NatToString(n / 10);
    } else {
      assert s[..|s| - 1] == [];
    }
  }

  /** A string made only of radix digits is one digit run. */
  lemma {:induction false} DigitRunAll(s: string, radix: nat)
    requires forall i :: 0 <= i < |s| ==> DigitValue(s[i]) < radix
    ensures DigitRun(s, radix) == |s|
  {
    if s != [] {
      DigitRunAll(s[1..], radix);
    }
  }

  /** Leading whitespace is only skipped when there is some. */
  lemma TrimStartNoSpace(s: string)
    requires s != [] && !IsSpace(s[0])
    ensures TrimStart(s) == s
  {
  }

  /** A non-empty string of decimal digits is read in full, in radix 10. */
  lemma ParseUnsignedDecimal(s: string)
    requires |s| >= 1
    requires forall i :: 0 <= i < |s| ==> DigitValue(s[i]) < 10
    ensures ParseUnsigned(s) == Num(DigitsValue(s, 10))
  {
    if |s| >= 2 {
      assert DigitValue(s[1]) < 10;
      assert s[1] != 'x' && s[1] != 'X';
    }
    assert ParseUnsigned(s) == ParseDigits(s, 10);
    DigitRunAll(s, 10);
    assert s[..|s|] == s;
  }

  /** The digits of a non-negative integer, with no sign before them, read back. */
  lemma ParseUnsignedNatToString(m: nat)
    ensures ParseUnsigned(NatToString(m)) == Num(m)
  {
    ParseUnsignedDecimal(NatToString(m));
    DigitsValueNatToString(m);
  }

  /** parseInt reads back a non-negative integer's decimal digits. */
  lemma ParseIntNatToString(m: nat)
    ensures ParseInt(NatToString(m)) == Num(m)
  {
    var d := NatToString(m);
    ParseUnsignedNatToString(m);
    assert DigitValue(d[0]) < 10;
    TrimStartNoSpace(d);
  }

  /** parseInt negates what follows a leading minus sign. */
  lemma ParseIntMinus(s: string, d: string, n: int)
    requires s == "-" + d && ParseUnsigned(d) == Num(-n)
    ensures ParseInt(s) == Num(n)
  {
    assert s[0] == '-' && s[1..] == d;
    TrimStartNoSpace(s);
  }

  /** parseInt reads back a negative integer's minus sign and digits. */
  lemma ParseIntNegative(n: int)
    requires n < 0
    ensures ParseInt(IntToString(n)) == Num(n)
  {
    ParseUnsignedNatToString(-n);
    ParseIntMinus(IntToString(n), NatToString(-n), n);
  }

  /** parseInt reads back what toString wrote: `parseInt(n.toString()) === n`. */
  lemma ParseIntToString(n: int)
    ensures ParseInt(IntToString(n)) == Num(n)
  {
    if n < 0 {
      ParseIntNegative(n);
    } else {
      ParseIntNatToString(n);
    }
  }

  /** Different integers print differently. */
  lemma IntToStringInjective(a: int, b: int)
    ensures IntToString(a) == IntToString(b) <==> a == b
  {
    ParseIntToString(a);
    ParseIntToString(b);
  }

  // ---------------------------------------------------------------------------------
  // toLowerCase, includes, startsWith

  /** `toLowerCase` restricted to ASCII letters. */
  function LowerChar(c: char): char {
    if 'A' <= c <= 'Z' then (c as int + 32) as char else c
  }

  /** `s.toLowerCase()` on ASCII: each character lowered, nothing else changed. */
  function Lower(s: string): (r: string)
    ensures |r| == |s|
    ensures forall i :: 0 <= i < |s| ==> r[i] == LowerChar(s[i])
  {
    seq(|s|, i requires 0 <= i < |s| => LowerChar(s[i]))
  }

  /** `s.startsWith(p)`. */
  predicate StartsWith(s: string, p: string) {
    p <= s
  }

  /** `s.includes(sub)`: `sub` occurs in `s` at some position. */
  predicate Includes(s: string, sub: string) {
    sub <= s || (s != [] && Includes(s[1..], sub))
  }

  /** Lowering both sides keeps an occurrence: a case-sensitive match is also a
      case-insensitive one. */
  lemma {:induction false} IncludesLower(s: string, sub: string)
    requires Includes(s, sub)
    ensures Includes(Lower(s), Lower(sub))
  {
    if sub <= s {
      assert Lower(sub) == Lower(s)[..|sub|];
    } else {
      IncludesLower(s[1..], sub);
      assert Lower(s)[1..] == Lower(s[1..]);
    }
  }

  /** Lowering twice is lowering once. */
  lemma LowerIdempotent(s: string)
    ensures Lower(Lower(s)) == Lower(s)
  {
  }
}
