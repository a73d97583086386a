/** The two Unicode encodings the parser converts between, told from their decoders (RFC 3629, and section 2 of
    RFC 2781). */
module JsonUnicode {
  import opened Basics
  import opened JsonGrammar

  /** A Unicode scalar value: any code point that is not a surrogate. */
  predicate IsScalar(v: nat) {
    v < 0xD800 || 0xE000 <= v < 0x110000
  }

  /** The UTF-16 code units of a scalar value. */
  function Utf16(v: nat): seq<nat>
    requires IsScalar(v)
  {
    if v < 0x10000 then [v] else [0xD800 + (v - 0x10000) / 0x400, 0xDC00 + (v - 0x10000) % 0x400]
  }

  /** The payload of a continuation byte. */
  function Continuation(c: char): Option<nat> {
    if 0x80 <= c as int < 0xC0 then Some(c as int - 0x80) else None
  }

  /** So many continuation bytes after a payload. */
  function Continued(v: nat, s: string, n: nat): Option<nat>
    decreases n
  {
    if n == 0 then Some(v)
    else if s == [] || Continuation(s[0]).None? then None
    else Continued(0x40 * v + Continuation(s[0]).value, s[1..], n - 1)
  }

  /** The scalar value in front of UTF-8 text, with the number of its bytes; overlong forms have none. */
  function FromUtf8(s: string): Option<(nat, nat)> {
    if s == [] then None
    else
      var b := s[0] as int;
      if b < 0x80 then Some((b, 1))
      else if 0xC0 <= b < 0xE0 then Checked(Continued(b - 0xC0, s[1..], 1), 0x80, 2)
      else if 0xE0 <= b < 0xF0 then Checked(Continued(b - 0xE0, s[1..], 2), 0x800, 3)
      else if 0xF0 <= b < 0xF8 then Checked(Continued(b - 0xF0, s[1..], 3), 0x10000, 4)
      else None
  }

  function Checked(v: Option<nat>, least: nat, n: nat): Option<(nat, nat)> {
    if v.None? || v.value < least || !IsScalar(v.value) then None else Some((v.value, n))
  }

  lemma OneContinued(v: nat, x: nat, tail: string, n: nat)
    requires x < 64 && n > 0
    ensures Continued(v, [ByteChar(0x80 + x)] + tail, n) == Continued(64 * v + x, tail, n - 1)
  {
    assert ([ByteChar(0x80 + x)] + tail)[1..] == tail;
  }

  /** Base-64 digits put together again. */
  lemma Base64(v: nat)
    ensures 64 * (v / 64) + v % 64 == v
    ensures 64 * (v / 4096) + v / 64 % 64 == v / 64
    ensures 64 * (v / 262144) + v / 4096 % 64 == v / 4096
  {
    assert v / 64 / 64 == v / 4096 && v / 4096 / 64 == v / 262144;
  }

  lemma TwoBytes(v: nat, rest: string)
    ensures Continued(v / 64, [ByteChar(0x80 + v % 64)] + rest, 1) == Some(v)
  {
    Base64(v);
    OneContinued(v / 64, v % 64, rest, 1);
  }

  lemma ThreeBytes(v: nat, rest: string)
    ensures Continued(v / 4096, [ByteChar(0x80 + v / 64 % 64), ByteChar(0x80 + v % 64)] + rest, 2) == Some(v)
  {
    Base64(v);
    var tail := [ByteChar(0x80 + v % 64)] + rest;
    OneContinued(v / 4096, v / 64 % 64, tail, 2);
    TwoBytes(v, rest);
    assert [ByteChar(0x80 + v / 64 % 64)] + tail == [ByteChar(0x80 + v / 64 % 64), ByteChar(0x80 + v % 64)] + rest;
  }

  lemma FourBytes(v: nat, rest: string)
    ensures Continued(v / 262144, [ByteChar(0x80 + v / 4096 % 64), ByteChar(0x80 + v / 64 % 64),
                                   ByteChar(0x80 + v % 64)] + rest, 3) == Some(v)
  {
    Base64(v);
    var tail := [ByteChar(0x80 + v / 64 % 64), ByteChar(0x80 + v % 64)] + rest;
    OneContinued(v / 262144, v / 4096 % 64, tail, 3);
    ThreeBytes(v, rest);
    assert [ByteChar(0x80 + v / 4096 % 64)] + tail ==
           [ByteChar(0x80 + v / 4096 % 64), ByteChar(0x80 + v / 64 % 64), ByteChar(0x80 + v % 64)] + rest;
  }

  /** The bytes of a scalar value decode to it, whatever follows. */
  lemma Utf8Decodes(v: nat, rest: string)
    requires IsScalar(v)
    ensures FromUtf8(Utf8(v) + rest) == Some((v, |Utf8(v)|))
  {
    var s := Utf8(v) + rest;
    assert s[0] == Utf8(v)[0] && s[1..] == Utf8(v)[1..] + rest;
    if v <= 0x7F {
    } else if v <= 0x7FF {
      TwoBytes(v, rest);
    } else if v <= 0xFFFF {
      ThreeBytes(v, rest);
    } else {
      FourBytes(v, rest);
    }
  }

  const LOWER: string := "0123456789abcdef"
  const UPPER: string := "0123456789ABCDEF"

  /** A hex digit of either case. */
  predicate Hex(c: char, d: nat) {
    d < 16 && (LOWER[d] == c || UPPER[d] == c)
  }

  lemma HexIsValue(c: char, d: nat)
    ensures Hex(c, d) <==> HexValue(c) == Some(d)
  {
    if HexValue(c) == Some(d) {
      assert d < 16;
      if '0' <= c <= '9' {
        assert LOWER[d] == c;
      } else if 'a' <= c <= 'f' {
        assert LOWER[d] == c;
      } else {
        assert UPPER[d] == c;
      }
    }
  }

  /** Four hex digits, the most significant first. */
  ghost predicate Codes(digits: string, u: nat) {
    exists a: nat, b: nat, c: nat, d: nat :: Spells(digits, a, b, c, d) && u == 0x1000 * a + 0x100 * b + 0x10 * c + d
  }

  predicate Spells(digits: string, a: nat, b: nat, c: nat, d: nat) {
    |digits| == 4 && Hex(digits[0], a) && Hex(digits[1], b) && Hex(digits[2], c) && Hex(digits[3], d)
  }

  lemma PrefixOfFour(s: string, a: nat, b: nat, c: nat, d: nat)
    requires |s| >= 4 && HexValue(s[0]) == Some(a) && HexValue(s[1]) == Some(b)
    requires HexValue(s[2]) == Some(c) && HexValue(s[3]) == Some(d)
    ensures CodeUnit(s) == Some(0x1000 * a + 0x100 * b + 0x10 * c + d)
  {
    assert HexPrefix(s, 1) == Some(a);
    assert HexPrefix(s, 2) == Some(16 * a + b);
    assert HexPrefix(s, 3) == Some(16 * (16 * a + b) + c);
  }

  lemma SpelledIsRead(digits: string, a: nat, b: nat, c: nat, d: nat, rest: string)
    requires Spells(digits, a, b, c, d)
    ensures CodeUnit(digits + rest) == Some(0x1000 * a + 0x100 * b + 0x10 * c + d)
    ensures |digits| == 4 && (digits + rest)[4..] == rest
  {
    HexIsValue(digits[0], a);
    HexIsValue(digits[1], b);
    HexIsValue(digits[2], c);
    HexIsValue(digits[3], d);
    var s := digits + rest;
    assert s[0] == digits[0] && s[1] == digits[1] && s[2] == digits[2] && s[3] == digits[3];
    PrefixOfFour(s, a, b, c, d);
  }

  lemma SpellingOf(digits: string, u: nat) returns (a: nat, b: nat, c: nat, d: nat)
    requires Codes(digits, u)
    ensures Spells(digits, a, b, c, d) && u == 0x1000 * a + 0x100 * b + 0x10 * c + d
  {
    a, b, c, d :| Spells(digits, a, b, c, d) && u == 0x1000 * a + 0x100 * b + 0x10 * c + d;
  }

  lemma CodesAreRead(digits: string, u: nat, rest: string)
    requires Codes(digits, u)
    ensures |digits| == 4 && CodeUnit(digits + rest) == Some(u) && (digits + rest)[4..] == rest
  {
    var a, b, c, d := SpellingOf(digits, u);
    SpelledIsRead(digits, a, b, c, d, rest);
  }

  lemma FourDigits(s: string)
    requires CodeUnit(s).Some?
    ensures |s| >= 4 && HexValue(s[0]).Some? && HexValue(s[1]).Some? && HexValue(s[2]).Some? && HexValue(s[3]).Some?
  {
    assert HexPrefix(s, 3).Some?;
    assert HexPrefix(s, 2).Some?;
    assert HexPrefix(s, 1).Some?;
  }

  lemma ReadAreCodes(s: string)
    requires CodeUnit(s).Some?
    ensures |s| >= 4 && Codes(s[..4], CodeUnit(s).value)
  {
    FourDigits(s);
    var a, b, c, d := HexValue(s[0]).value, HexValue(s[1]).value, HexValue(s[2]).value, HexValue(s[3]).value;
    PrefixOfFour(s, a, b, c, d);
    HexIsValue(s[0], a);
    HexIsValue(s[1], b);
    HexIsValue(s[2], c);
    HexIsValue(s[3], d);
    assert Spells(s[..4], a, b, c, d);
  }
}
