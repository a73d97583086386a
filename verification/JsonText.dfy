/** The parser and the writer as the program runs them: a cursor moving over the text, and text appended piece by
    piece. Each is proved to compute what `JsonGrammar` and `JsonValues` say. */
module JsonText {
  import opened Basics
  import opened Decimals
  import opened JsonValues
  import opened JsonGrammar

  /** Replaces the first member with this key in place, or adds the member at the end. */
  method PutMember(members: seq<Member>, key: string, value: Value) returns (after: seq<Member>)
    ensures after == Put(members, key, value)
  {
    var i := 0;
    while i < |members|
      invariant 0 <= i <= |members| && forall k :: 0 <= k < i ==> members[k].key != key
    {
      if members[i].key == key {
        PutFirst(members, key, value, i);
        return members[i := Member(key, value)];
      }
      i := i + 1;
    }
    PutNewKey(members, key, value);
    after := members + [Member(key, value)];
  }

  lemma {:induction false} PutFirst(members: seq<Member>, key: string, value: Value, i: nat)
    requires i < |members| && members[i].key == key && forall k :: 0 <= k < i ==> members[k].key != key
    ensures Put(members, key, value) == members[i := Member(key, value)]
  {
    if i > 0 {
      assert members[0].key != key;
      PutFirst(members[1..], key, value, i - 1);
    }
  }

  /** A document under construction. */
  class Node {
    var data: Value

    constructor (value: Value)
      ensures data == value
    {
      data := value;
    }

    /** Null turns into an object first; any other kind than an object is a caller's mistake and changes nothing. */
    method Put(key: string, value: Value) returns (ok: bool)
      modifies this
      ensures ok == (old(data).Null? || old(data).Obj?)
      ensures data == (if old(data).Null? then Obj([Member(key, value)])
                       else if old(data).Obj? then Obj(JsonValues.Put(old(data).members, key, value))
                       else old(data))
    {
      if data.Null? {
        data := Obj([]);
      }
      if !data.Obj? {
        return false;
      }
      var members := PutMember(data.members, key, value);
      data := Obj(members);
      ok := true;
    }

    method Append(value: Value) returns (ok: bool)
      modifies this
      ensures ok == (old(data).Null? || old(data).Arr?)
      ensures data == (if old(data).Null? then Arr([value])
                       else if old(data).Arr? then Arr(old(data).elements + [value])
                       else old(data))
    {
      if data.Null? {
        data := Arr([]);
      }
      if !data.Arr? {
        return false;
      }
      data := Arr(data.elements + [value]);
      ok := true;
    }
  }

  class Parser {
    const f: Floats
    const text: string
    var pos: nat
    var depth: nat

    ghost predicate Valid()
      reads this
    {
      pos <= |text|
    }

    /** What has not been consumed. */
    ghost function Rest(): string
      reads this
      requires Valid()
    {
      text[pos..]
    }

    constructor (f: Floats, text: string)
      ensures Valid() && Rest() == text == this.text && depth == 0 && this.f == f
    {
      this.f, this.text, pos, depth := f, text, 0, 0;
    }

    method Consume() returns (c: char)
      requires Valid() && Rest() != []
      modifies this`pos
      ensures Valid() && c == old(Rest())[0] && Rest() == old(Rest())[1..]
    {
      c := text[pos];
      pos := pos + 1;
    }

    method ConsumeLiteral(literal: string) returns (ok: bool)
      requires Valid()
      modifies this`pos
      ensures Valid() && ok == StartsWith(old(Rest()), literal)
      ensures Rest() == if ok then old(Rest())[|literal|..] else old(Rest())
    {
      ok := |text| - pos >= |literal| && text[pos..pos + |literal|] == literal;
      if |text| - pos >= |literal| {
        assert text[pos..][..|literal|] == text[pos..pos + |literal|];
      }
      if ok {
        pos := pos + |literal|;
      }
    }

    method SkipWs()
      requires Valid()
      modifies this`pos
      ensures Valid() && Rest() == SkipSpace(old(Rest()))
    {
      while pos < |text| && IsSpace(text[pos])
        invariant Valid() && SkipSpace(Rest()) == SkipSpace(old(Rest()))
        decreases |text| - pos
      {
        var _ := Consume();
      }
    }

    method ParseHex4CodeUnit() returns (r: Option<nat>)
      requires Valid()
      modifies this`pos
      ensures Valid() && r == CodeUnit(old(Rest()))
      ensures r.Some? ==> Rest() == old(Rest())[4..]
    {
      if |text| - pos < 4 {
        return None;
      }
      ghost var s := Rest();
      var codeUnit := 0;
      var i := 0;
      while i < 4
        invariant i <= 4 && Valid() && Rest() == s[i..]
        invariant HexPrefix(s, i) == Some(codeUnit)
      {
        HexStep(s, i, codeUnit);
        var c := Consume();
        assert c == s[i];
        codeUnit := codeUnit * 16 % 0x10000;
        if '0' <= c <= '9' {
          codeUnit := codeUnit + (c - '0') as int;
        } else if 'a' <= c <= 'f' {
          codeUnit := codeUnit + (c - 'a') as int + 10;
        } else if 'A' <= c <= 'F' {
          codeUnit := codeUnit + (c - 'A') as int + 10;
        } else {
          return None;
        }
        i := i + 1;
      }
      r := Some(codeUnit);
    }

    /** A unicode escape from after its `\u`. */
    method ParseUnicodeEscapeScalar() returns (r: Option<nat>)
      requires Valid()
      modifies this`pos
      ensures Valid() && r == (var e := Scalar(old(Rest())); if e.None? then None else Some(e.value.0))
      ensures r.Some? ==> Rest() == Scalar(old(Rest())).value.1
    {
      var codeUnit := ParseHex4CodeUnit();
      if codeUnit.None? {
        return None;
      }
      if HighSurrogate(codeUnit.value) {
        ghost var t := Rest();
        if |text| - pos < 2 || text[pos] != '\\' || text[pos + 1] != 'u' {
          return None;
        }
        pos := pos + 2;
        assert Rest() == t[2..];
        var low := ParseHex4CodeUnit();
        if low.None? || !LowSurrogate(low.value) {
          return None;
        }
        assert t[2..][4..] == t[6..];
        return Some(0x10000 + (codeUnit.value - 0xD800) * 1024 + (low.value - 0xDC00));
      }
      if LowSurrogate(codeUnit.value) {
        return None;
      }
      r := codeUnit;
    }

    /** An escape from after its backslash, appended to what the string holds so far. */
    method AppendEscape(before: string) returns (ok: bool, out: string)
      requires Valid()
      modifies this`pos
      ensures Valid() && ok == Escape(old(Rest())).Some?
      ensures ok ==> Rest() == Escape(old(Rest())).value.1 && out == before + Escape(old(Rest())).value.0
    {
      ok, out := false, before;
      if pos == |text| {
        return;
      }
      ghost var s := Rest();
      var escape := Consume();
      if escape == '\"' || escape == '\\' || escape == '/' {
        ok, out := true, before + [escape];
      } else if escape == 'b' {
        ok, out := true, before + [8 as char];
      } else if escape == 'f' {
        ok, out := true, before + [12 as char];
      } else if escape == 'n' {
        ok, out := true, before + "\n";
      } else if escape == 'r' {
        ok, out := true, before + "\r";
      } else if escape == 't' {
        ok, out := true, before + "\t";
      } else if escape == 'u' {
        ScalarBound(s[1..]);
        var scalar := ParseUnicodeEscapeScalar();
        if scalar.Some? {
          ok, out := true, before + Utf8(scalar.value);
        }
      }
    }

    method ParseString() returns (r: Option<string>)
      requires Valid() && Rest() != [] && Rest()[0] == '\"'
      modifies this`pos
      ensures Valid() && r == (var e := Chars(old(Rest())[1..]); if e.None? then None else Some(e.value.0))
      ensures r.Some? ==> Rest() == Chars(old(Rest())[1..]).value.1
    {
      ghost var s := Rest()[1..];
      var _ := Consume();
      var out := "";
      ContinuedTwice([], [], Chars(s));
      while pos < |text|
        invariant Valid() && Chars(s) == Continued(out, Chars(Rest()))
        decreases |text| - pos
      {
        ghost var t := Rest();
        var c := Consume();
        if c == '\"' {
          assert out + "" == out;
          return Some(out);
        }
        if c == '\\' {
          var ok, longer := AppendEscape(out);
          if !ok {
            return None;
          }
          ContinuedTwice(out, Escape(t[1..]).value.0, Chars(Rest()));
          assert |Rest()| < |t|;
          out := longer;
        } else if c < ' ' {
          return None;
        } else {
          ContinuedTwice(out, [c], Chars(Rest()));
          out := out + [c];
        }
      }
      r := None;
    }

    /** Consumes the digits at the cursor. */
    method ConsumeDigits()
      requires Valid()
      modifies this`pos
      ensures Valid() && LeadingDigits(old(Rest())) <= |old(Rest())|
      ensures pos == old(pos) + LeadingDigits(old(Rest()))
    {
      LeadingDigitsOf(Rest());
      while pos < |text| && IsDigit(text[pos])
        invariant Valid() && pos + LeadingDigits(Rest()) == old(pos) + LeadingDigits(old(Rest()))
        decreases |text| - pos
      {
        var _ := Consume();
      }
    }

    /** Moves past the sign and integer part. */
    method ConsumeIntegerPart() returns (ok: bool)
      requires Valid() && Rest() != []
      modifies this`pos
      ensures Valid() && ok == IntegerPart(old(Rest())).Some?
      ensures ok ==> pos == old(pos) + IntegerPart(old(Rest())).value
    {
      ghost var s := Rest();
      if text[pos] == '-' {
        pos := pos + 1;
        if pos == |text| {
          return false;
        }
        assert Rest() == s[1..];
      }
      if text[pos] == '0' {
        pos := pos + 1;
      } else if IsDigit(text[pos]) {
        ConsumeDigits();
      } else {
        return false;
      }
      ok := true;
    }

    method ConsumeFraction() returns (ok: bool, present: bool)
      requires Valid()
      modifies this`pos
      ensures Valid() && ok == Fraction(old(Rest())).Some?
      ensures ok ==> pos == old(pos) + Fraction(old(Rest())).value && present == (Fraction(old(Rest())).value > 0)
    {
      ok, present := true, false;
      if pos < |text| && text[pos] == '.' {
        present := true;
        var _ := Consume();
        if pos == |text| || !IsDigit(text[pos]) {
          return false, true;
        }
        ConsumeDigits();
      }
    }

    method ConsumeExponent() returns (ok: bool, present: bool)
      requires Valid()
      modifies this`pos
      ensures Valid() && ok == Exponent(old(Rest())).Some?
      ensures ok ==> pos == old(pos) + Exponent(old(Rest())).value && present == (Exponent(old(Rest())).value > 0)
    {
      ok, present := true, false;
      if pos < |text| && (text[pos] == 'e' || text[pos] == 'E') {
        present := true;
        ghost var s := Rest();
        var _ := Consume();
        if pos < |text| && (text[pos] == '+' || text[pos] == '-') {
          var _ := Consume();
          assert Rest() == s[2..];
        }
        if pos == |text| || !IsDigit(text[pos]) {
          return false, true;
        }
        ConsumeDigits();
      }
    }

    /** Moves past a number. */
    method ConsumeNumber() returns (ok: bool, whole: bool)
      requires Valid() && Rest() != []
      modifies this`pos
      ensures Valid() && ok == NumberSpan(old(Rest())).Some?
      ensures ok ==> pos == old(pos) + NumberSpan(old(Rest())).value.0 && whole == NumberSpan(old(Rest())).value.1
    {
      ghost var s, begin := Rest(), pos;
      whole := false;
      ok := ConsumeIntegerPart();
      if !ok {
        return;
      }
      ghost var i := pos - begin;
      assert Rest() == s[i..];
      var fraction, exponent;
      ok, fraction := ConsumeFraction();
      if !ok {
        return;
      }
      ghost var j := pos - begin;
      assert Rest() == s[j..];
      ok, exponent := ConsumeExponent();
      whole := !fraction && !exponent;
      SpanParts(s, i, j);
    }

    method ParseNumber() returns (r: Option<Value>)
      requires Valid() && Rest() != []
      modifies this`pos
      ensures Valid() && r == (var e := Number(f, old(Rest())); if e.None? then None else Some(e.value.0))
      ensures r.Some? ==> Rest() == Number(f, old(Rest())).value.1
    {
      ghost var s := Rest();
      var begin := pos;
      var ok, whole := ConsumeNumber();
      if !ok {
        return None;
      }
      assert Rest() == s[pos - begin..] && text[begin..pos] == s[..pos - begin];
      r := NumberOf(f, text[begin..pos], whole);
    }

    /** The whole text must be one value. */
    method ParseWhole() returns (r: Option<Value>)
      requires Valid() && depth == 0
      modifies this
      ensures r == Parse(f, old(Rest()))
    {
      ghost var e := ParseValue(f, Rest(), 0);
      r := ParseAny();
      if r.Some? {
        SkipWs();
        assert Rest() == SkipSpace(e.value.1);
        if pos != |text| {
          assert Rest() != [];
          r := None;
        } else {
          assert Rest() == [];
        }
      }
    }

    method ParseAny() returns (r: Option<Value>)
      requires Valid()
      modifies this
      ensures Valid() && Parsed(ParseValue(f, old(Rest()), old(depth)), r)
      ensures r.Some? ==> Rest() == ParseValue(f, old(Rest()), old(depth)).value.1 && depth == old(depth)
      ensures depth >= old(depth)
      decreases |Rest()|, 1
    {
      SkipWs();
      if pos == |text| {
        return None;
      }
      var ok;
      match text[pos]
      case 'n' =>
        ok := ConsumeLiteral("null");
        r := if ok then Some(Null) else None;
      case 't' =>
        ok := ConsumeLiteral("true");
        r := if ok then Some(Bool(true)) else None;
      case 'f' =>
        ok := ConsumeLiteral("false");
        r := if ok then Some(Bool(false)) else None;
      case '\"' =>
        var str := ParseString();
        r := if str.Some? then Some(Str(str.value)) else None;
      case '[' =>
        r := ParseArray();
      case '{' =>
        r := ParseObject();
      case c =>
        if c == '-' || IsDigit(c) {
          r := ParseNumber();
        } else {
          r := None;
        }
    }

    method ParseArray() returns (r: Option<Value>)
      requires Valid() && Rest() != [] && Rest()[0] == '['
      modifies this
      ensures Valid() && Parsed(ParseValue(f, old(Rest()), old(depth)), r)
      ensures r.Some? ==> Rest() == ParseValue(f, old(Rest()), old(depth)).value.1 && depth == old(depth)
      ensures depth >= old(depth)
      decreases |Rest()|, 0
    {
      ghost var s := Rest();
      assert SkipSpace(s) == s;
      depth := depth + 1;
      if depth > MAX_DEPTH {
        return None;
      }
      var _ := Consume();
      SkipWs();
      if pos < |text| && text[pos] == ']' {
        var _ := Consume();
        depth := depth - 1;
        return Some(Arr([]));
      }
      r := ParseElementsLoop();
    }

    /** The loop over the elements, up to and with the closing bracket, which leaves the container. */
    method ParseElementsLoop() returns (r: Option<Value>)
      requires Valid() && depth > 0
      modifies this
      ensures Valid() && Parsed(ParseElements(f, old(Rest()), old(depth), []), r)
      ensures r.Some? ==> Rest() == ParseElements(f, old(Rest()), old(depth), []).value.1 && depth == old(depth) - 1
      ensures depth >= old(depth) - 1
      decreases |Rest()|, 2
    {
      ghost var inner := Rest();
      var elements := [];
      while true
        invariant Valid() && depth == old(depth) && |Rest()| <= |inner|
        invariant ParseElements(f, inner, depth, []) == ParseElements(f, Rest(), depth, elements)
        decreases |Rest()|
      {
        var value := ParseAny();
        if value.None? {
          depth := depth - 1;
          return None;
        }
        elements := elements + [value.value];
        SkipWs();
        if pos == |text| {
          depth := depth - 1;
          return None;
        }
        var c := Consume();
        if c == ']' {
          depth := depth - 1;
          return Some(Arr(elements));
        }
        if c != ',' {
          depth := depth - 1;
          return None;
        }
        SkipWs();
      }
    }

    method ParseObject() returns (r: Option<Value>)
      requires Valid() && Rest() != [] && Rest()[0] == '{'
      modifies this
      ensures Valid() && Parsed(ParseValue(f, old(Rest()), old(depth)), r)
      ensures r.Some? ==> Rest() == ParseValue(f, old(Rest()), old(depth)).value.1 && depth == old(depth)
      ensures depth >= old(depth)
      decreases |Rest()|, 0
    {
      ghost var s := Rest();
      assert SkipSpace(s) == s;
      depth := depth + 1;
      if depth > MAX_DEPTH {
        return None;
      }
      var _ := Consume();
      SkipWs();
      if pos < |text| && text[pos] == '}' {
        var _ := Consume();
        depth := depth - 1;
        return Some(Obj([]));
      }
      r := ParseMembersLoop();
    }

    /** The loop over the members, up to and with the closing brace, which leaves the container. */
    method ParseMembersLoop() returns (r: Option<Value>)
      requires Valid() && depth > 0
      modifies this
      ensures Valid() && Parsed(ParseMembers(f, old(Rest()), old(depth), []), r)
      ensures r.Some? ==> Rest() == ParseMembers(f, old(Rest()), old(depth), []).value.1 && depth == old(depth) - 1
      ensures depth >= old(depth) - 1
      decreases |Rest()|, 3
    {
      ghost var inner := Rest();
      var members := [];
      while true
        invariant Valid() && depth == old(depth) && |Rest()| <= |inner|
        invariant ParseMembers(f, inner, depth, []) == ParseMembers(f, Rest(), depth, members)
        decreases |Rest()|
      {
        var m := ParseOneMember();
        if m.None? {
          depth := depth - 1;
          return None;
        }
        members := PutMember(members, m.value.key, m.value.value);
        SkipWs();
        if pos == |text| {
          depth := depth - 1;
          return None;
        }
        var c := Consume();
        if c == '}' {
          depth := depth - 1;
          return Some(Obj(members));
        }
        if c != ',' {
          depth := depth - 1;
          return None;
        }
      }
    }

    /** The part of the object loop that reads a key, the colon and a value. */
    method ParseOneMember() returns (r: Option<Member>)
      requires Valid()
      modifies this
      ensures Valid()
      ensures r == (var e := ParseMember(f, old(Rest()), old(depth)); if e.None? then None else Some(e.value.0))
      ensures r.Some? ==> Rest() == ParseMember(f, old(Rest()), old(depth)).value.1 && depth == old(depth)
      ensures depth >= old(depth)
      decreases |Rest()|, 2
    {
      SkipWs();
      if pos == |text| || text[pos] != '\"' {
        return None;
      }
      var key := ParseString();
      if key.None? {
        return None;
      }
      SkipWs();
      if pos == |text| || text[pos] != ':' {
        return None;
      }
      var _ := Consume();
      var value := ParseAny();
      if value.None? {
        return None;
      }
      r := Some(Member(key.value, value.value));
    }
  }

  /** A result keeps the value of a grammar's answer and drops the rest of the text. */
  ghost predicate Parsed(e: Option<(Value, string)>, r: Option<Value>) {
    r == if e.None? then None else Some(e.value.0)
  }

  /** A bad digit anywhere spoils every longer run. */
  lemma {:induction false} HexFailure(s: string, i: nat, n: nat)
    requires i <= n <= |s|
    ensures HexPrefix(s, i).None? ==> HexPrefix(s, n).None?
  {
    if i < n {
      HexFailure(s, i, n - 1);
    }
  }

  lemma SpanParts(s: string, i: nat, j: nat)
    requires s != [] && i <= j <= |s|
    requires IntegerPart(s) == Some(i) && Fraction(s[i..]) == Some(j - i)
    ensures NumberSpan(s) ==
            (var e := Exponent(s[j..]); if e.None? then None else Some((j + e.value, i == j && e.value == 0)))
  {
  }

  lemma HexStep(s: string, i: nat, v: nat)
    requires i < 4 <= |s| && HexPrefix(s, i) == Some(v)
    ensures v * 16 % 0x10000 == 16 * v
    ensures var d := HexValue(s[i]);
            if d.None? then CodeUnit(s) == None else HexPrefix(s, i + 1) == Some(16 * v + d.value)
  {
    HexPrefixBound(s, i);
    HexFailure(s, i + 1, 4);
  }

  ghost function Continued(before: string, e: Option<(string, string)>): Option<(string, string)> {
    if e.None? then None else Some((before + e.value.0, e.value.1))
  }

  lemma ContinuedTwice(a: string, b: string, e: Option<(string, string)>)
    ensures Continued(a, Continued(b, e)) == Continued(a + b, e)
    ensures Continued([], e) == e
  {
    if e.Some? {
      assert [] + e.value.0 == e.value.0;
      assert a + (b + e.value.0) == a + b + e.value.0;
    }
  }

  /** The parser accepts exactly the texts of the grammar and gives their values. */
  method ParseText(f: Floats, text: string) returns (r: Option<Value>)
    ensures r == Parse(f, text)
  {
    var parser := new Parser(f, text);
    r := parser.ParseWhole();
  }

  // ---- writer ----

  /** Text being written. */
  class Output {
    var text: string

    constructor ()
      ensures text == ""
    {
      text := "";
    }

    method AppendUnicodeEscape(codeUnit: nat)
      requires codeUnit < 0x10000
      modifies this
      ensures text == old(text) + "\\u" + [HEX[codeUnit / 4096], HEX[codeUnit / 256 % 16],
                                           HEX[codeUnit / 16 % 16], HEX[codeUnit % 16]]
    {
      text := text + "\\u";
      text := text + [HEX[codeUnit / 4096 % 16]];
      text := text + [HEX[codeUnit / 256 % 16]];
      text := text + [HEX[codeUnit / 16 % 16]];
      text := text + [HEX[codeUnit % 16]];
    }

    method AppendChar(c: char)
      modifies this
      ensures text == old(text) + Escaped(c)
    {
      if c == '\"' {
        text := text + "\\\"";
      } else if c == '\\' {
        text := text + "\\\\";
      } else if c == 8 as char {
        text := text + "\\b";
      } else if c == 12 as char {
        text := text + "\\f";
      } else if c == '\n' {
        text := text + "\\n";
      } else if c == '\r' {
        text := text + "\\r";
      } else if c == '\t' {
        text := text + "\\t";
      } else if c < ' ' {
        AppendUnicodeEscape(c as int);
        assert HEX[0] == '0';
      } else {
        text := text + [c];
      }
    }

    method AppendStringLiteral(value: string)
      modifies this
      ensures text == old(text) + Quoted(value)
    {
      text := text + "\"";
      ghost var start := text;
      var i := 0;
      while i < |value|
        invariant 0 <= i <= |value|
        invariant text + EscapedAll(value[i..]) == start + EscapedAll(value)
      {
        ghost var before := text;
        assert value[i..][1..] == value[i + 1..];
        AppendChar(value[i]);
        Joined(before, Escaped(value[i]), EscapedAll(value[i + 1..]));
        i := i + 1;
      }
      Closed(old(text), start, EscapedAll(value), text, "\"");
      text := text + "\"";
    }

    method DumpTo(f: Floats, v: Value)
      modifies this
      ensures text == old(text) + Dump(f, v)
      decreases v, 1
    {
      match v
      case Null => text := text + "null";
      case Bool(b) => text := text + if b then "true" else "false";
      case Int(i) => text := text + Signed(i);
      case UInt(u) => text := text + Decimal(u);
      case Double(bits) => text := text + f.write(bits);
      case Str(s) => AppendStringLiteral(s);
      case Arr(elements) => DumpArray(f, elements);
      case Obj(members) => DumpObject(f, members);
    }

    method DumpArray(f: Floats, elements: seq<Value>)
      modifies this
      ensures text == old(text) + ("[" + DumpElements(f, elements) + "]")
      decreases elements, 0
    {
      text := text + "[";
      ghost var start := text;
      var index := 0;
      while index < |elements|
        invariant 0 <= index <= |elements|
        invariant text + ElementsTail(f, elements, index) == start + DumpElements(f, elements)
      {
        ghost var before := text;
        NextElementText(f, elements, index);
        if index != 0 {
          text := text + ",";
        }
        DumpTo(f, elements[index]);
        Joined3(before, Separator(index), Dump(f, elements[index]), ElementsTail(f, elements, index + 1));
        index := index + 1;
      }
      Closed(old(text), start, DumpElements(f, elements), text, "]");
      text := text + "]";
    }

    method DumpObject(f: Floats, members: seq<Member>)
      modifies this
      ensures text == old(text) + ("{" + DumpMembers(f, members) + "}")
      decreases members, 0
    {
      text := text + "{";
      ghost var start := text;
      var index := 0;
      while index < |members|
        invariant 0 <= index <= |members|
        invariant text + MembersTail(f, members, index) == start + DumpMembers(f, members)
      {
        ghost var before, tail := text, MembersTail(f, members, index + 1);
        NextMemberText(f, members, index);
        if index != 0 {
          text := text + ",";
        }
        DumpOneMember(f, members[index]);
        Joined3(before, Separator(index), DumpMember(f, members[index]), tail);
        assert text + tail == before + MembersTail(f, members, index);
        index := index + 1;
      }
      Closed(old(text), start, DumpMembers(f, members), text, "}");
      text := text + "}";
    }

    method DumpOneMember(f: Floats, m: Member)
      modifies this
      ensures text == old(text) + DumpMember(f, m)
      decreases m, 0
    {
      AppendStringLiteral(m.key);
      text := text + ":";
      DumpTo(f, m.value);
    }
  }

  lemma Joined(a: string, b: string, c: string)
    ensures a + b + c == a + (b + c)
  {
  }

  lemma Joined3(a: string, b: string, c: string, d: string)
    ensures a + b + c + d == a + (b + c + d)
    ensures b == "" ==> a + c + d == a + (b + c + d)
  {
  }

  /** When nothing is left to write, the closing mark completes the text. */
  lemma Closed(before: string, start: string, inner: string, text: string, close: string)
    requires |start| == |before| + 1 && start == before + [start[|before|]] && text + "" == start + inner
    ensures text + close == before + ([start[|before|]] + inner + close)
  {
    assert text == text + "";
  }

  function Separator(i: nat): string {
    if i == 0 then "" else ","
  }

  /** What is still to be written of an array from its i-th element on. */
  function ElementsTail(f: Floats, vs: seq<Value>, i: nat): string
    requires i <= |vs|
  {
    if i == |vs| then "" else Separator(i) + DumpElements(f, vs[i..])
  }

  lemma NextElementText(f: Floats, vs: seq<Value>, i: nat)
    requires i < |vs|
    ensures ElementsTail(f, vs, i) == Separator(i) + Dump(f, vs[i]) + ElementsTail(f, vs, i + 1)
    ensures i == 0 ==> ElementsTail(f, vs, i) == DumpElements(f, vs)
  {
    var rest := vs[i..];
    assert rest[1..] == vs[i + 1..] && rest[0] == vs[i];
    FirstElementText(f, rest);
    var first, tail := Dump(f, vs[i]), ElementsTail(f, vs, i + 1);
    assert DumpElements(f, rest) == first + tail;
    Joined(Separator(i), first, tail);
    assert i == 0 ==> rest == vs && "" + (first + tail) == first + tail;
  }

  lemma FirstElementText(f: Floats, vs: seq<Value>)
    requires vs != []
    ensures DumpElements(f, vs) == Dump(f, vs[0]) + if |vs| == 1 then "" else "," + DumpElements(f, vs[1..])
  {
  }

  function MembersTail(f: Floats, ms: seq<Member>, i: nat): string
    requires i <= |ms|
  {
    if i == |ms| then "" else Separator(i) + DumpMembers(f, ms[i..])
  }

  lemma NextMemberText(f: Floats, ms: seq<Member>, i: nat)
    requires i < |ms|
    ensures MembersTail(f, ms, i) == Separator(i) + DumpMember(f, ms[i]) + MembersTail(f, ms, i + 1)
    ensures i == 0 ==> MembersTail(f, ms, i) == DumpMembers(f, ms)
  {
    var rest := ms[i..];
    assert rest[1..] == ms[i + 1..] && rest[0] == ms[i];
    FirstMemberText(f, rest);
    var first, tail := DumpMember(f, ms[i]), MembersTail(f, ms, i + 1);
    assert DumpMembers(f, rest) == first + tail;
    Joined(Separator(i), first, tail);
    assert i == 0 ==> rest == ms && "" + (first + tail) == first + tail;
  }

  lemma FirstMemberText(f: Floats, ms: seq<Member>)
    requires ms != []
    ensures DumpMembers(f, ms) == DumpMember(f, ms[0]) + if |ms| == 1 then "" else "," + DumpMembers(f, ms[1..])
  {
  }

  method DumpText(f: Floats, v: Value) returns (text: string)
    ensures text == Dump(f, v)
  {
    var out := new Output();
    out.DumpTo(f, v);
    text := out.text;
  }
}
