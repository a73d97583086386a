/** What the parser accepts and what it makes of it, as functions from a text to a value and the text left over. */
module JsonGrammar {
  import opened Basics
  import opened Decimals
  import opened JsonValues

  const MAX_DEPTH: nat := 64

  predicate IsSpace(c: char) {
    c == ' ' || c == '\t' || c == '\n' || c == '\r'
  }

  function SkipSpace(s: string): (r: string)
    ensures |r| <= |s|
  {
    if s != [] && IsSpace(s[0]) then SkipSpace(s[1..]) else s
  }

  // ---- strings ----

  function HexValue(c: char): Option<nat> {
    if '0' <= c <= '9' then Some((c - '0') as nat)
    else if 'a' <= c <= 'f' then Some((c - 'a') as nat + 10)
    else if 'A' <= c <= 'F' then Some((c - 'A') as nat + 10)
    else None
  }

  /** The value of so many hex digits at the front. */
  function HexPrefix(s: string, n: nat): Option<nat>
    requires n <= |s|
  {
    if n == 0 then Some(0)
    else
      var high, low := HexPrefix(s, n - 1), HexValue(s[n - 1]);
      if high.None? || low.None? then None else Some(16 * high.value + low.value)
  }

  /** A UTF-16 code unit in four hex digits. */
  function CodeUnit(s: string): (r: Option<nat>) {
    if |s| < 4 then None else HexPrefix(s, 4)
  }

  predicate HighSurrogate(u: nat) {
    0xD800 <= u <= 0xDBFF
  }

  predicate LowSurrogate(u: nat) {
    0xDC00 <= u <= 0xDFFF
  }

  /** A scalar value and what follows it, from after the `\u`. */
  function Scalar(s: string): Option<(nat, string)> {
    var first := CodeUnit(s);
    if first.None? || LowSurrogate(first.value) then None
    else if !HighSurrogate(first.value) then Some((first.value, s[4..]))
    else
      var t := s[4..];
      if |t| < 2 || t[0] != '\\' || t[1] != 'u' then None
      else
        var second := CodeUnit(t[2..]);
        if second.None? || !LowSurrogate(second.value) then None
        else Some((0x10000 + (first.value - 0xD800) * 1024 + (second.value - 0xDC00), t[6..]))
  }

  lemma {:induction false} HexPrefixBound(s: string, n: nat)
    requires n <= 4 && n <= |s|
    ensures HexPrefix(s, n).Some? ==> HexPrefix(s, n).value < [1, 16, 256, 4096, 65536][n]
  {
    if n > 0 {
      HexPrefixBound(s, n - 1);
    }
  }

  function ByteChar(b: nat): char
    requires b < 256
  {
    b as char
  }

  /** The UTF-8 bytes of a scalar value. */
  function Utf8(v: nat): string
    requires v < 0x110000
  {
    if v <= 0x7F then [ByteChar(v)]
    else if v <= 0x7FF then [ByteChar(0xC0 + v / 64), ByteChar(0x80 + v % 64)]
    else if v <= 0xFFFF then [ByteChar(0xE0 + v / 4096), ByteChar(0x80 + v / 64 % 64), ByteChar(0x80 + v % 64)]
    else [ByteChar(0xF0 + v / 262144), ByteChar(0x80 + v / 4096 % 64), ByteChar(0x80 + v / 64 % 64),
          ByteChar(0x80 + v % 64)]
  }

  lemma ScalarBound(s: string)
    ensures Scalar(s).Some? ==> Scalar(s).value.0 < 0x110000 && |Scalar(s).value.1| < |s|
  {
    if |s| >= 4 {
      HexPrefixBound(s, 4);
    }
  }

  /** One escape, from after its backslash. */
  function Escape(s: string): (r: Option<(string, string)>)
    ensures r.Some? ==> |r.value.1| < |s|
  {
    if s == [] then None
    else match s[0]
      case '\"' => Some(("\"", s[1..]))
      case '\\' => Some(("\\", s[1..]))
      case '/' => Some(("/", s[1..]))
      case 'b' => Some(([8 as char], s[1..]))
      case 'f' => Some(([12 as char], s[1..]))
      case 'n' => Some(("\n", s[1..]))
      case 'r' => Some(("\r", s[1..]))
      case 't' => Some(("\t", s[1..]))
      case 'u' =>
        ScalarBound(s[1..]);
        var scalar := Scalar(s[1..]);
        if scalar.None? then None else Some((Utf8(scalar.value.0), scalar.value.1))
      case _ => None
  }

  /** A string from after its opening quote. */
  function Chars(s: string): (r: Option<(string, string)>)
    ensures r.Some? ==> |r.value.1| < |s|
    decreases |s|
  {
    if s == [] then None
    else if s[0] == '\"' then Some(("", s[1..]))
    else if s[0] == '\\' then
      var e := Escape(s[1..]);
      if e.None? then None
      else
        var tail := Chars(e.value.1);
        if tail.None? then None else Some((e.value.0 + tail.value.0, tail.value.1))
    else if s[0] < ' ' then None
    else
      var tail := Chars(s[1..]);
      if tail.None? then None else Some(([s[0]] + tail.value.0, tail.value.1))
  }

  // ---- numbers ----

  /** The length of the sign and integer part. */
  function IntegerPart(s: string): (r: Option<nat>)
    requires s != []
    ensures r.Some? ==> 0 < r.value <= |s|
  {
    var sign := if s[0] == '-' then 1 else 0;
    if sign == |s| then None
    else if s[sign] == '0' then Some(sign + 1)
    else
      LeadingDigitsOf(s[sign..]);
      if LeadingDigits(s[sign..]) == 0 then None else Some(sign + LeadingDigits(s[sign..]))
  }

  /** The length of the fraction at this position; 0 when there is none, None when it is malformed. */
  function Fraction(s: string): (r: Option<nat>)
    ensures r.Some? ==> r.value <= |s|
  {
    if s == [] || s[0] != '.' then Some(0)
    else
      LeadingDigitsOf(s[1..]);
      if LeadingDigits(s[1..]) == 0 then None else Some(1 + LeadingDigits(s[1..]))
  }

  function Exponent(s: string): (r: Option<nat>)
    ensures r.Some? ==> r.value <= |s|
  {
    if s == [] || (s[0] != 'e' && s[0] != 'E') then Some(0)
    else
      var sign := if |s| > 1 && (s[1] == '+' || s[1] == '-') then 2 else 1;
      LeadingDigitsOf(s[sign..]);
      if LeadingDigits(s[sign..]) == 0 then None else Some(sign + LeadingDigits(s[sign..]))
  }

  /** The integer a sign and digits stand for. */
  function IntegerOf(text: string): int {
    if text != [] && text[0] == '-' then -(ValueOf(text[1..]) as int) else ValueOf(text)
  }

  function AsDouble(f: Floats, text: string): Option<Value> {
    var d := f.read(text);
    if d.None? then None else Some(Double(d.value))
  }

  /** A whole number is signed 64-bit if it fits, unsigned 64-bit if it fits that and has no sign, or a double. */
  function NumberOf(f: Floats, text: string, whole: bool): Option<Value> {
    if !whole then AsDouble(f, text)
    else
      var i := IntegerOf(text);
      if INT64_MIN <= i <= INT64_MAX then Some(Int(i))
      else if text != [] && text[0] != '-' && 0 <= i <= U64_MAX then Some(UInt(i))
      else AsDouble(f, text)
  }

  /** How long the number at the front is, and whether it has neither fraction nor exponent. */
  function NumberSpan(s: string): (r: Option<(nat, bool)>)
    requires s != []
    ensures r.Some? ==> 0 < r.value.0 <= |s|
  {
    var i := IntegerPart(s);
    if i.None? then None
    else
      var fraction := Fraction(s[i.value..]);
      if fraction.None? then None
      else
        var j := i.value + fraction.value;
        var exponent := Exponent(s[j..]);
        if exponent.None? then None else Some((j + exponent.value, j + exponent.value == i.value))
  }

  function Number(f: Floats, s: string): (r: Option<(Value, string)>)
    requires s != []
    ensures r.Some? ==> |r.value.1| < |s|
  {
    var span := NumberSpan(s);
    if span.None? then None
    else
      var v := NumberOf(f, s[..span.value.0], span.value.1);
      if v.None? then None else Some((v.value, s[span.value.0..]))
  }

  // ---- values ----

  predicate StartsWith(s: string, literal: string) {
    |literal| <= |s| && s[..|literal|] == literal
  }

  function Literal(s: string, literal: string, v: Value): Option<(Value, string)> {
    if StartsWith(s, literal) then Some((v, s[|literal|..])) else None
  }

  /** One value, inside `depth` containers. */
  function ParseValue(f: Floats, s: string, depth: nat): (r: Option<(Value, string)>)
    ensures r.Some? ==> |r.value.1| < |s|
    decreases |s|, 0
  {
    var t := SkipSpace(s);
    if t == [] then None
    else match t[0]
      case 'n' => Literal(t, "null", Null)
      case 't' => Literal(t, "true", Bool(true))
      case 'f' => Literal(t, "false", Bool(false))
      case '\"' =>
        var str := Chars(t[1..]);
        if str.None? then None else Some((Str(str.value.0), str.value.1))
      case '[' =>
        if depth + 1 > MAX_DEPTH then None
        else
          var u := SkipSpace(t[1..]);
          if u != [] && u[0] == ']' then Some((Arr([]), u[1..])) else ParseElements(f, u, depth + 1, [])
      case '{' =>
        if depth + 1 > MAX_DEPTH then None
        else
          var u := SkipSpace(t[1..]);
          if u != [] && u[0] == '}' then Some((Obj([]), u[1..])) else ParseMembers(f, u, depth + 1, [])
      case c => if c == '-' || IsDigit(c) then Number(f, t) else None
  }

  /** The rest of an array that already holds `before`. */
  function ParseElements(f: Floats, s: string, depth: nat, before: seq<Value>): (r: Option<(Value, string)>)
    ensures r.Some? ==> |r.value.1| < |s|
    decreases |s|, 1
  {
    var v := ParseValue(f, s, depth);
    if v.None? then None
    else
      var t := SkipSpace(v.value.1);
      if t == [] then None
      else if t[0] == ']' then Some((Arr(before + [v.value.0]), t[1..]))
      else if t[0] == ',' then ParseElements(f, SkipSpace(t[1..]), depth, before + [v.value.0])
      else None
  }

  /** One member of an object. */
  function ParseMember(f: Floats, s: string, depth: nat): (r: Option<(Member, string)>)
    ensures r.Some? ==> |r.value.1| < |s|
    decreases |s|, 1
  {
    var t := SkipSpace(s);
    if t == [] || t[0] != '\"' then None
    else
      var key := Chars(t[1..]);
      if key.None? then None
      else
        var u := SkipSpace(key.value.1);
        if u == [] || u[0] != ':' then None
        else
          var v := ParseValue(f, u[1..], depth);
          if v.None? then None else Some((Member(key.value.0, v.value.0), v.value.1))
  }

  /** The rest of an object that already holds `before`. */
  function ParseMembers(f: Floats, s: string, depth: nat, before: seq<Member>): (r: Option<(Value, string)>)
    ensures r.Some? ==> |r.value.1| < |s|
    decreases |s|, 2
  {
    var m := ParseMember(f, s, depth);
    if m.None? then None
    else
      var after := Put(before, m.value.0.key, m.value.0.value);
      var t := SkipSpace(m.value.1);
      if t == [] then None
      else if t[0] == '}' then Some((Obj(after), t[1..]))
      else if t[0] == ',' then ParseMembers(f, t[1..], depth, after)
      else None
  }

  /** The whole text must be one value. */
  function Parse(f: Floats, text: string): Option<Value> {
    var v := ParseValue(f, text, 0);
    if v.None? || SkipSpace(v.value.1) != [] then None else Some(v.value.0)
  }
}
