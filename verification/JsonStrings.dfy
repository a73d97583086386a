/** Spaces and strings as RFC 8259 writes them, and what the parser makes of them. */
module JsonStrings {
  import opened Basics
  import opened JsonValues
  import opened JsonGrammar
  import opened JsonRoundTrip
  import opened JsonUnicode

  // ---- spaces ----

  /** Only spaces, tabs, line feeds and carriage returns. */
  predicate Gap(w: string) {
    forall i :: 0 <= i < |w| ==> w[i] as int == 0x20 || w[i] as int == 0x09 || w[i] as int == 0x0A || w[i] as int == 0x0D
  }

  lemma {:induction false} GapIsSkipped(w: string, s: string)
    requires Gap(w)
    ensures SkipSpace(w + s) == SkipSpace(s)
  {
    if w == [] {
      assert w + s == s;
    } else {
      assert (w + s)[1..] == w[1..] + s;
      GapIsSkipped(w[1..], s);
    }
  }

  lemma {:induction false} SkippedIsGap(s: string) returns (w: string)
    ensures Gap(w) && s == w + SkipSpace(s) && SkipSpace(SkipSpace(s)) == SkipSpace(s)
  {
    if s != [] && IsSpace(s[0]) {
      var rest := SkippedIsGap(s[1..]);
      w := [s[0]] + rest;
    } else {
      w := "";
    }
  }

  // ---- strings ----

  /** A char as it is, a backslash with a letter, or a code point in one or two UTF-16 units of four hex digits. */
  datatype Piece = Plain(c: char) | Short(letter: char) | Coded(v: nat, digits: seq<string>)

  predicate IsShort(letter: char) {
    letter in "\"\\/bfnrt"
  }

  ghost predicate PieceOk(p: Piece) {
    match p
    case Plain(c) => c as int >= 0x20 && c != '\"' && c != '\\'
    case Short(letter) => IsShort(letter)
    case Coded(v, digits) =>
      && IsScalar(v) && |digits| == |Utf16(v)|
      && forall i :: 0 <= i < |digits| ==> Codes(digits[i], Utf16(v)[i])
  }

  function PieceText(p: Piece): string {
    match p
    case Plain(c) => [c]
    case Short(letter) => ['\\', letter]
    case Coded(_, digits) =>
      if |digits| == 1 then "\\u" + digits[0] else if |digits| == 2 then "\\u" + digits[0] + "\\u" + digits[1] else ""
  }

  function PieceMeaning(p: Piece): string {
    match p
    case Plain(c) => [c]
    case Short(letter) =>
      (match letter
       case 'b' => [0x08 as char]
       case 'f' => [0x0C as char]
       case 'n' => [0x0A as char]
       case 'r' => [0x0D as char]
       case 't' => [0x09 as char]
       case _ => [letter])
    case Coded(v, _) => if IsScalar(v) then Utf8(v) else ""
  }

  function PiecesText(ps: seq<Piece>): string {
    if ps == [] then "" else PieceText(ps[0]) + PiecesText(ps[1..])
  }

  function PiecesMeaning(ps: seq<Piece>): string {
    if ps == [] then "" else PieceMeaning(ps[0]) + PiecesMeaning(ps[1..])
  }

  ghost predicate PiecesOk(ps: seq<Piece>) {
    ps == [] || (PieceOk(ps[0]) && PiecesOk(ps[1..]))
  }

  /** What a piece stands for, then what the rest of the string says. */
  function ThenAll(said: string, r: Option<(string, string)>): Option<(string, string)> {
    if r.None? then None else Some((said + r.value.0, r.value.1))
  }

  lemma EscapeIsRead(e: string, said: string, tail: string)
    requires Escape(e + tail) == Some((said, tail))
    ensures Chars(['\\'] + e + tail) == ThenAll(said, Chars(tail))
  {
    var s := ['\\'] + e + tail;
    assert s[0] == '\\' && s[1..] == e + tail;
  }

  lemma ShortIsRead(letter: char, tail: string)
    requires IsShort(letter)
    ensures Escape([letter] + tail) == Some((PieceMeaning(Short(letter)), tail))
  {
    var s := [letter] + tail;
    assert s[0] == letter && s[1..] == tail;
  }

  lemma UnitIsRead(v: nat, digits: string, tail: string)
    requires IsScalar(v) && v < 0x10000 && Codes(digits, v)
    ensures Scalar(digits + tail) == Some((v, tail))
  {
    CodesAreRead(digits, v, tail);
  }

  lemma PairIsRead(v: nat, high: string, low: string, tail: string)
    requires IsScalar(v) && v >= 0x10000 && Codes(high, Utf16(v)[0]) && Codes(low, Utf16(v)[1])
    ensures Scalar(high + ("\\u" + (low + tail))) == Some((v, tail))
  {
    var second := "\\u" + (low + tail);
    CodesAreRead(high, Utf16(v)[0], second);
    CodesAreRead(low, Utf16(v)[1], tail);
    AfterMark(low + tail);
    ScalarOfPair(high + second, second);
  }

  lemma AfterMark(s: string)
    requires |s| >= 4
    ensures var t := "\\u" + s; t[0] == '\\' && t[1] == 'u' && t[2..] == s && t[6..] == s[4..]
  {
  }

  lemma ScalarOfPair(s: string, t: string)
    requires CodeUnit(s).Some? && HighSurrogate(CodeUnit(s).value) && s[4..] == t
    requires |t| >= 6 && t[0] == '\\' && t[1] == 'u' && CodeUnit(t[2..]).Some? && LowSurrogate(CodeUnit(t[2..]).value)
    ensures Scalar(s) ==
            Some((0x10000 + (CodeUnit(s).value - 0xD800) * 1024 + (CodeUnit(t[2..]).value - 0xDC00), t[6..]))
  {
  }

  lemma CodedIsRead(v: nat, digits: seq<string>, tail: string)
    requires PieceOk(Coded(v, digits))
    ensures var text := PieceText(Coded(v, digits));
            text != [] && text[0] == '\\' && Escape(text[1..] + tail) == Some((Utf8(v), tail))
  {
    var text := PieceText(Coded(v, digits));
    if v < 0x10000 {
      UnitIsRead(v, digits[0], tail);
      assert (text[1..] + tail)[1..] == digits[0] + tail;
    } else {
      PairIsRead(v, digits[0], digits[1], tail);
      assert (text[1..] + tail)[1..] == digits[0] + ("\\u" + (digits[1] + tail));
    }
  }

  lemma PieceIsRead(p: Piece, tail: string)
    requires PieceOk(p)
    ensures Chars(PieceText(p) + tail) == ThenAll(PieceMeaning(p), Chars(tail))
  {
    match p
    case Plain(c) => PlainChar(c, tail);
    case Short(letter) =>
      ShortIsRead(letter, tail);
      EscapeIsRead([letter], PieceMeaning(p), tail);
      assert ['\\'] + [letter] == PieceText(p);
    case Coded(v, digits) =>
      CodedIsRead(v, digits, tail);
      EscapeIsRead(PieceText(p)[1..], Utf8(v), tail);
      assert ['\\'] + PieceText(p)[1..] == PieceText(p);
  }

  lemma EndIsRead(rest: string)
    ensures Chars("\"" + rest) == Some(("", rest))
  {
    assert ("\"" + rest)[1..] == rest;
  }

  lemma FirstPiece(ps: seq<Piece>, tail: string)
    requires ps != []
    ensures PiecesText(ps) + tail == PieceText(ps[0]) + (PiecesText(ps[1..]) + tail)
  {
  }

  /** Every well-formed string is read as what its pieces stand for. */
  lemma {:induction false} PiecesAreRead(ps: seq<Piece>, rest: string)
    requires PiecesOk(ps)
    ensures Chars(PiecesText(ps) + ("\"" + rest)) == Some((PiecesMeaning(ps), rest))
  {
    if ps == [] {
      EndIsRead(rest);
      assert PiecesText(ps) + ("\"" + rest) == "\"" + rest;
    } else {
      var tail := PiecesText(ps[1..]) + ("\"" + rest);
      PiecesAreRead(ps[1..], rest);
      PieceIsRead(ps[0], tail);
      FirstPiece(ps, "\"" + rest);
    }
  }

  lemma UnitScalar(s: string)
    requires Scalar(s).Some? && !HighSurrogate(CodeUnit(s).value)
    ensures |s| >= 4 && IsScalar(CodeUnit(s).value) && CodeUnit(s).value < 0x10000
    ensures Scalar(s).value == (CodeUnit(s).value, s[4..])
  {
    HexPrefixBound(s, 4);
  }

  lemma ReadIsUnit(s: string) returns (p: Piece)
    requires Scalar(s).Some? && !HighSurrogate(CodeUnit(s).value)
    ensures PieceOk(p) && p.Coded? && p.v == Scalar(s).value.0
    ensures "\\u" + s == PieceText(p) + Scalar(s).value.1
  {
    var first := CodeUnit(s).value;
    UnitScalar(s);
    ReadAreCodes(s);
    p := Coded(first, [s[..4]]);
    assert Utf16(first) == [first];
    assert s == s[..4] + s[4..];
  }

  lemma PairUnits(high: nat, low: nat)
    requires HighSurrogate(high) && LowSurrogate(low)
    ensures var v := 0x10000 + (high - 0xD800) * 1024 + (low - 0xDC00);
            IsScalar(v) && v >= 0x10000 && Utf16(v) == [high, low]
  {
    var v := 0x10000 + (high - 0xD800) * 1024 + (low - 0xDC00);
    assert (v - 0x10000) / 0x400 == high - 0xD800;
  }

  lemma SplitPair(s: string)
    requires |s| >= 10 && s[4] == '\\' && s[5] == 'u'
    ensures "\\u" + s == "\\u" + s[..4] + "\\u" + s[6..][..4] + s[4..][6..]
  {
  }

  lemma ReadIsPair(s: string) returns (p: Piece)
    requires Scalar(s).Some? && HighSurrogate(CodeUnit(s).value)
    ensures PieceOk(p) && p.Coded? && p.v == Scalar(s).value.0
    ensures "\\u" + s == PieceText(p) + Scalar(s).value.1
  {
    var first, t := CodeUnit(s).value, s[4..];
    assert t[2..] == s[6..];
    var second := CodeUnit(s[6..]).value;
    ReadAreCodes(s);
    ReadAreCodes(s[6..]);
    PairUnits(first, second);
    p := Coded(0x10000 + (first - 0xD800) * 1024 + (second - 0xDC00), [s[..4], s[6..][..4]]);
    SplitPair(s);
  }

  lemma ReadIsCoded(s: string) returns (p: Piece)
    requires Scalar(s).Some?
    ensures PieceOk(p) && p.Coded? && p.v == Scalar(s).value.0
    ensures "\\u" + s == PieceText(p) + Scalar(s).value.1
  {
    if HighSurrogate(CodeUnit(s).value) {
      p := ReadIsPair(s);
    } else {
      p := ReadIsUnit(s);
    }
  }

  lemma ReadIsShort(s: string) returns (p: Piece)
    requires Escape(s).Some? && s[0] != 'u'
    ensures PieceOk(p) && p == Short(s[0]) && Escape(s).value == (PieceMeaning(p), s[1..])
  {
    p := Short(s[0]);
  }

  lemma ReadIsUnicode(s: string) returns (p: Piece)
    requires Escape(s).Some? && s[0] == 'u'
    ensures PieceOk(p) && p.Coded? && PieceMeaning(p) == Escape(s).value.0
    ensures ['\\'] + s == PieceText(p) + Escape(s).value.1
  {
    var t := s[1..];
    p := ReadIsCoded(t);
    assert Escape(s) == Some((Utf8(p.v), Scalar(t).value.1));
    assert ['\\'] + s == "\\u" + t;
  }

  lemma ReadIsEscape(s: string) returns (p: Piece)
    requires Escape(s).Some?
    ensures PieceOk(p) && !p.Plain? && PieceMeaning(p) == Escape(s).value.0
    ensures ['\\'] + s == PieceText(p) + Escape(s).value.1
  {
    if s[0] == 'u' {
      p := ReadIsUnicode(s);
    } else {
      p := ReadIsShort(s);
      assert s == [s[0]] + s[1..];
    }
  }

  lemma ReadIsPiece(s: string) returns (p: Piece, tail: string)
    requires Chars(s).Some? && s[0] != '\"'
    ensures PieceOk(p) && s == PieceText(p) + tail && |tail| < |s|
    ensures Chars(tail).Some? && Chars(s).value == (PieceMeaning(p) + Chars(tail).value.0, Chars(tail).value.1)
  {
    if s[0] == '\\' {
      p := ReadIsEscape(s[1..]);
      tail := Escape(s[1..]).value.1;
      assert s == ['\\'] + s[1..];
    } else {
      p, tail := Plain(s[0]), s[1..];
      assert s == [s[0]] + s[1..];
    }
  }

  lemma OneMorePiece(p: Piece, ps: seq<Piece>, tail: string)
    requires PieceOk(p) && PiecesOk(ps)
    ensures PiecesOk([p] + ps) && PiecesMeaning([p] + ps) == PieceMeaning(p) + PiecesMeaning(ps)
    ensures PiecesText([p] + ps) + tail == PieceText(p) + (PiecesText(ps) + tail)
  {
    assert ([p] + ps)[1..] == ps;
  }

  /** Every string the parser accepts is well-formed. */
  lemma {:induction false} ReadArePieces(s: string) returns (ps: seq<Piece>)
    requires Chars(s).Some?
    ensures PiecesOk(ps) && PiecesMeaning(ps) == Chars(s).value.0
    ensures s == PiecesText(ps) + ("\"" + Chars(s).value.1)
    decreases |s|
  {
    if s[0] == '\"' {
      ps := [];
      assert s == "\"" + s[1..];
    } else {
      var p, tail := ReadIsPiece(s);
      var more := ReadArePieces(tail);
      ps := [p] + more;
      OneMorePiece(p, more, "\"" + Chars(tail).value.1);
    }
  }
}
