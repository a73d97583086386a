/** Writing a value and parsing the text gives the value back; parsing never yields anything else than such values. */
module JsonRoundTrip {
  import opened Basics
  import opened Decimals
  import opened JsonValues
  import opened JsonGrammar
  import opened JsonNumerals

  /** A value the parser can produce inside `room` more containers: its keys are unique, its integers are in range
      and typed as the parser types them. */
  ghost predicate Canonical(v: Value, room: nat)
    decreases v
  {
    match v
    case Int(i) => INT64_MIN <= i <= INT64_MAX
    case UInt(u) => INT64_MAX < u <= U64_MAX
    case Arr(elements) => room > 0 && forall e :: e in elements ==> Canonical(e, room - 1)
    case Obj(members) =>
      room > 0 && UniqueKeys(members) && forall m :: m in members ==> Canonical(m.value, room - 1)
    case _ => true
  }

  ghost predicate DoubleFree(v: Value)
    decreases v
  {
    match v
    case Double(_) => false
    case Arr(elements) => forall e :: e in elements ==> DoubleFree(e)
    case Obj(members) => forall m :: m in members ==> DoubleFree(m.value)
    case _ => true
  }

  /** The library writes this double as a number that does not pass for an integer, and reads the same double back. */
  ghost predicate ReadsBack(f: Floats, bits: nat) {
    exists n: Numeral :: NumeralOk(n) && f.write(bits) == NumeralText(n) && NumeralMeaning(f, n) == Some(Double(bits))
  }

  /** Every double in the value is one that the library writes and reads faithfully. */
  ghost predicate Faithful(f: Floats, v: Value)
    decreases v
  {
    match v
    case Double(bits) => ReadsBack(f, bits)
    case Arr(elements) => forall e :: e in elements ==> Faithful(f, e)
    case Obj(members) => forall m :: m in members ==> Faithful(f, m.value)
    case _ => true
  }

  lemma {:induction false} DoubleFreeIsFaithful(f: Floats, v: Value)
    requires DoubleFree(v)
    ensures Faithful(f, v)
    decreases v
  {
    match v
    case Arr(elements) =>
      forall e | e in elements ensures Faithful(f, e) {
        DoubleFreeIsFaithful(f, e);
      }
    case Obj(members) =>
      forall m | m in members ensures Faithful(f, m.value) {
        DoubleFreeIsFaithful(f, m.value);
      }
    case _ =>
  }

  // ---- strings ----

  lemma HexDigit(d: nat)
    requires d < 16
    ensures HexValue(HEX[d]) == Some(d)
  {
  }

  /** A control char survives its six-char escape. */
  lemma ControlEscape(c: char, rest: string)
    requires c < ' '
    ensures var s := ['u', '0', '0', HEX[c as int / 16], HEX[c as int % 16]] + rest;
            Escape(s) == Some(([c], rest))
  {
    var high, low := c as int / 16, c as int % 16;
    var s := ['u', '0', '0', HEX[high], HEX[low]] + rest;
    var t := s[1..];
    HexDigit(high);
    HexDigit(low);
    assert HexPrefix(t, 1) == Some(0);
    assert HexPrefix(t, 2) == Some(0);
    assert HexPrefix(t, 3) == Some(high);
    assert HexPrefix(t, 4) == Some(c as int);
    assert t[4..] == rest;
  }

  /** The char c, then what the rest of the string says. */
  function Then(c: char, r: Option<(string, string)>): Option<(string, string)> {
    if r.None? then None else Some(([c] + r.value.0, r.value.1))
  }

  /** What an escape stands for is what the string gets. */
  lemma CharsAfterEscape(c: char, e: string, tail: string)
    requires Escape(e + tail) == Some(([c], tail))
    ensures Chars(['\\'] + e + tail) == Then(c, Chars(tail))
  {
    var s := ['\\'] + e + tail;
    assert s[0] == '\\' && s[1..] == e + tail;
  }

  lemma ShortEscape(c: char, e: char, tail: string)
    requires Escaped(c) == ['\\', e]
    ensures Escape([e] + tail) == Some(([c], tail))
  {
    var s := [e] + tail;
    assert s[1..] == tail;
    if c == '\"' || c == '\\' {
      assert e == c;
    } else if c == 8 as char || c == 12 as char {
      assert e == if c == 8 as char then 'b' else 'f';
    } else {
      assert e == if c == '\n' then 'n' else if c == '\r' then 'r' else 't';
    }
  }

  lemma PlainChar(c: char, tail: string)
    requires c != '\"' && c != '\\' && c >= ' '
    ensures Chars([c] + tail) == Then(c, Chars(tail))
  {
    assert ([c] + tail)[1..] == tail;
  }

  /** A char is written as itself, as a backslash and a letter, or as a backslash and a code. */
  lemma EscapedShape(c: char)
    ensures var e := Escaped(c);
            || (e == [c] && c != '\"' && c != '\\' && c >= ' ')
            || (|e| == 2 && e == ['\\', e[1]])
            || (c < ' ' && |e| == 6 && e == ['\\'] + ['u', '0', '0', HEX[c as int / 16], HEX[c as int % 16]])
  {
  }

  /** One char is read back from how it is written, whatever follows. */
  lemma EscapedReadsBack(c: char, tail: string)
    ensures Chars(Escaped(c) + tail) == Then(c, Chars(tail))
  {
    EscapedShape(c);
    var e := Escaped(c);
    if |e| == 1 {
      PlainChar(c, tail);
    } else if |e| == 2 {
      ShortEscape(c, e[1], tail);
      CharsAfterEscape(c, [e[1]], tail);
      assert e == ['\\'] + [e[1]];
    } else {
      ControlEscape(c, tail);
      CharsAfterEscape(c, ['u', '0', '0', HEX[c as int / 16], HEX[c as int % 16]], tail);
    }
  }

  /** Any string whatever is read back from its literal. */
  lemma {:induction false} StringReadsBack(s: string, rest: string)
    ensures Chars(EscapedAll(s) + "\"" + rest) == Some((s, rest))
  {
    if s == [] {
      assert EscapedAll(s) + "\"" + rest == "\"" + rest;
    } else {
      var tail := EscapedAll(s[1..]) + "\"" + rest;
      assert EscapedAll(s) + "\"" + rest == Escaped(s[0]) + tail;
      EscapedReadsBack(s[0], tail);
      StringReadsBack(s[1..], rest);
      assert [s[0]] + s[1..] == s;
    }
  }

  // ---- numbers ----

  /** What may follow a value in a compact text, or nothing. */
  predicate Delimited(rest: string) {
    rest == [] || rest[0] == ',' || rest[0] == ']' || rest[0] == '}'
  }

  /** With nothing but a delimiter after the digits there is no fraction and no exponent. */
  lemma WholeNumber(f: Floats, text: string, rest: string)
    requires text != [] && IntegerPart(text + rest) == Some(|text|) && Delimited(rest)
    ensures var v := NumberOf(f, text, true);
            Number(f, text + rest) == if v.None? then None else Some((v.value, rest))
  {
    var s := text + rest;
    assert s[|text|..] == rest && s[..|text|] == text;
    assert Fraction(rest) == Some(0) && Exponent(rest) == Some(0);
    assert NumberSpan(s) == Some((|text|, true));
  }

  lemma WholeNumberReadsBack(f: Floats, sign: string, n: nat, rest: string)
    requires sign == "" || (sign == "-" && n > 0)
    requires Delimited(rest)
    ensures var text := sign + Decimal(n);
            var v := NumberOf(f, text, true);
            && text != []
            && Number(f, text + rest) == (if v.None? then None else Some((v.value, rest)))
            && IntegerOf(text) == (if sign == "" then n as int else -(n as int))
  {
    DecimalRoundTrip(n);
    DigitsPart(sign, Decimal(n), rest);
    WholeNumber(f, sign + Decimal(n), rest);
    assert (sign + Decimal(n))[|sign|..] == Decimal(n);
  }

  lemma DigitsPart(sign: string, digits: string, rest: string)
    requires (sign == "" || sign == "-") && digits != [] && AllDigits(digits) && Delimited(rest)
    requires digits[0] == '0' ==> |digits| == 1
    ensures IntegerPart(sign + digits + rest) == Some(|sign + digits|)
  {
    var s := sign + digits + rest;
    LeadingDigitsStop(digits, rest);
    assert s[|sign|..] == digits + rest;
    assert s[|sign|] == digits[0];
  }

  lemma NumberLeads(f: Floats, s: string, depth: nat)
    requires s != [] && (s[0] == '-' || IsDigit(s[0]))
    ensures ParseValue(f, s, depth) == Number(f, s)
  {
    assert SkipSpace(s) == s;
  }

  lemma NumberStart(f: Floats, sign: string, n: nat, rest: string, depth: nat)
    requires sign == "" || sign == "-"
    ensures var s := sign + Decimal(n) + rest;
            s != [] && ParseValue(f, s, depth) == Number(f, s)
  {
    DecimalRoundTrip(n);
    var s := sign + Decimal(n) + rest;
    assert s[0] == (if sign == "" then Decimal(n)[0] else '-');
    assert IsDigit(Decimal(n)[0]);
    NumberLeads(f, s, depth);
  }

  lemma IntReadsBack(f: Floats, i: int, rest: string, depth: nat)
    requires INT64_MIN <= i <= INT64_MAX && Delimited(rest)
    ensures ParseValue(f, Signed(i) + rest, depth) == Some((Int(i), rest))
  {
    var sign, n := if i < 0 then "-" else "", if i < 0 then -i else i;
    assert Signed(i) == sign + Decimal(n);
    WholeNumberReadsBack(f, sign, n, rest);
    NumberStart(f, sign, n, rest, depth);
  }

  lemma UnsignedText(f: Floats, u: nat)
    requires INT64_MAX < u <= U64_MAX && IntegerOf(Decimal(u)) == u
    ensures NumberOf(f, Decimal(u), true) == Some(UInt(u))
  {
    DecimalRoundTrip(u);
    assert IsDigit(Decimal(u)[0]);
  }

  lemma UIntReadsBack(f: Floats, u: nat, rest: string, depth: nat)
    requires INT64_MAX < u <= U64_MAX && Delimited(rest)
    ensures ParseValue(f, Decimal(u) + rest, depth) == Some((UInt(u), rest))
  {
    assert "" + Decimal(u) == Decimal(u);
    WholeNumberReadsBack(f, "", u, rest);
    NumberStart(f, "", u, rest, depth);
    UnsignedText(f, u);
  }

  // ---- values ----

  /** A written value starts with something other than a space or a closing bracket. */
  lemma DumpStart(f: Floats, v: Value)
    requires Faithful(f, v)
    ensures Dump(f, v) != []
    ensures var c := Dump(f, v)[0]; !IsSpace(c) && c != ']' && c != '}'
  {
    match v
    case Int(i) =>
      DecimalRoundTrip(if i < 0 then -i else i);
      assert IsDigit(Decimal(if i < 0 then -i else i)[0]);
    case UInt(u) =>
      DecimalRoundTrip(u);
      assert IsDigit(Decimal(u)[0]);
    case Double(bits) =>
      var n: Numeral :| NumeralOk(n) && f.write(bits) == NumeralText(n);
      NumeralStart(n);
    case _ =>
  }

  /** The literals. */
  lemma AtomReadsBack(f: Floats, v: Value, rest: string, depth: nat)
    requires v.Null? || v.Bool?
    ensures ParseValue(f, Dump(f, v) + rest, depth) == Some((v, rest))
  {
    var text := Dump(f, v);
    assert SkipSpace(text + rest) == text + rest;
    assert (text + rest)[..|text|] == text && (text + rest)[|text|..] == rest;
  }

  lemma StrReadsBack(f: Floats, s: string, rest: string, depth: nat)
    ensures ParseValue(f, Quoted(s) + rest, depth) == Some((Str(s), rest))
  {
    StringReadsBack(s, rest);
    assert SkipSpace(Quoted(s) + rest) == Quoted(s) + rest;
    assert (Quoted(s) + rest)[1..] == EscapedAll(s) + "\"" + rest;
  }

  lemma DoubleReadsBack(f: Floats, bits: nat, rest: string, depth: nat)
    requires ReadsBack(f, bits) && Delimited(rest)
    ensures ParseValue(f, f.write(bits) + rest, depth) == Some((Double(bits), rest))
  {
    var n: Numeral :| NumeralOk(n) && f.write(bits) == NumeralText(n) && NumeralMeaning(f, n) == Some(Double(bits));
    NumeralStart(n);
    NumeralIsRead(f, n, rest);
    NumberLeads(f, NumeralText(n) + rest, depth);
  }

  // One step of each container loop, on any text.

  lemma LastElement(f: Floats, s: string, v: Value, rest: string, depth: nat, before: seq<Value>)
    requires ParseValue(f, s, depth) == Some((v, "]" + rest))
    ensures ParseElements(f, s, depth, before) == Some((Arr(before + [v]), rest))
  {
    assert SkipSpace("]" + rest) == "]" + rest && ("]" + rest)[1..] == rest;
  }

  lemma NextElement(f: Floats, s: string, v: Value, tail: string, depth: nat, before: seq<Value>)
    requires ParseValue(f, s, depth) == Some((v, "," + tail)) && SkipSpace(tail) == tail
    ensures ParseElements(f, s, depth, before) == ParseElements(f, tail, depth, before + [v])
  {
    assert SkipSpace("," + tail) == "," + tail && ("," + tail)[1..] == tail;
  }

  lemma LastMember(f: Floats, s: string, m: Member, rest: string, depth: nat, before: seq<Member>)
    requires ParseMember(f, s, depth) == Some((m, "}" + rest))
    ensures ParseMembers(f, s, depth, before) == Some((Obj(Put(before, m.key, m.value)), rest))
  {
    assert SkipSpace("}" + rest) == "}" + rest && ("}" + rest)[1..] == rest;
  }

  lemma NextMember(f: Floats, s: string, m: Member, tail: string, depth: nat, before: seq<Member>)
    requires ParseMember(f, s, depth) == Some((m, "," + tail))
    ensures ParseMembers(f, s, depth, before) == ParseMembers(f, tail, depth, Put(before, m.key, m.value))
  {
    assert SkipSpace("," + tail) == "," + tail && ("," + tail)[1..] == tail;
  }

  lemma OpenArray(f: Floats, inner: string, depth: nat)
    requires depth < MAX_DEPTH && inner != [] && !IsSpace(inner[0])
    ensures ParseValue(f, "[" + inner, depth) ==
            if inner[0] == ']' then Some((Arr([]), inner[1..])) else ParseElements(f, inner, depth + 1, [])
  {
    var s := "[" + inner;
    assert SkipSpace(s) == s && s[1..] == inner && SkipSpace(inner) == inner;
  }

  lemma OpenObject(f: Floats, inner: string, depth: nat)
    requires depth < MAX_DEPTH && inner != [] && !IsSpace(inner[0])
    ensures ParseValue(f, "{" + inner, depth) ==
            if inner[0] == '}' then Some((Obj([]), inner[1..])) else ParseMembers(f, inner, depth + 1, [])
  {
    var s := "{" + inner;
    assert SkipSpace(s) == s && s[1..] == inner && SkipSpace(inner) == inner;
  }

  /** A value that can be read back inside `depth` containers. */
  ghost predicate Plain(f: Floats, v: Value, depth: nat) {
    depth <= MAX_DEPTH && Canonical(v, MAX_DEPTH - depth) && Faithful(f, v)
  }

  /** Every canonical value whose doubles are faithful is read back from its text, whatever delimiter follows. */
  lemma {:induction false} ValueReadsBack(f: Floats, v: Value, rest: string, depth: nat)
    requires Plain(f, v, depth) && Delimited(rest)
    ensures ParseValue(f, Dump(f, v) + rest, depth) == Some((v, rest))
    decreases v, 1
  {
    match v
    case Null => AtomReadsBack(f, v, rest, depth);
    case Bool(_) => AtomReadsBack(f, v, rest, depth);
    case Int(i) => IntReadsBack(f, i, rest, depth);
    case UInt(u) => UIntReadsBack(f, u, rest, depth);
    case Double(bits) => DoubleReadsBack(f, bits, rest, depth);
    case Str(s) => StrReadsBack(f, s, rest, depth);
    case Arr(elements) => ArrReadsBack(f, elements, rest, depth);
    case Obj(members) => ObjReadsBack(f, members, rest, depth);
  }

  lemma {:induction false} ArrReadsBack(f: Floats, vs: seq<Value>, rest: string, depth: nat)
    requires Plain(f, Arr(vs), depth)
    ensures ParseValue(f, Dump(f, Arr(vs)) + rest, depth) == Some((Arr(vs), rest))
    decreases vs, 1
  {
    var inner := DumpElements(f, vs) + ("]" + rest);
    assert Dump(f, Arr(vs)) + rest == "[" + inner;
    if vs == [] {
      assert inner == "]" + rest && inner[1..] == rest;
    } else {
      assert forall e :: e in vs ==> Plain(f, e, depth + 1);
      ElementsStart(f, vs, "]" + rest);
      ElementsReadBack(f, vs, [], rest, depth + 1);
      assert [] + vs == vs;
    }
    OpenArray(f, inner, depth);
  }

  lemma {:induction false} ObjReadsBack(f: Floats, ms: seq<Member>, rest: string, depth: nat)
    requires Plain(f, Obj(ms), depth)
    ensures ParseValue(f, Dump(f, Obj(ms)) + rest, depth) == Some((Obj(ms), rest))
    decreases ms, 1
  {
    var inner := DumpMembers(f, ms) + ("}" + rest);
    assert Dump(f, Obj(ms)) + rest == "{" + inner;
    if ms == [] {
      assert inner == "}" + rest && inner[1..] == rest;
    } else {
      assert forall m :: m in ms ==> Plain(f, m.value, depth + 1);
      MembersStart(f, ms, "}" + rest);
      assert [] + ms == ms;
      MembersReadBack(f, ms, [], rest, depth + 1);
    }
    OpenObject(f, inner, depth);
  }

  lemma ElementsStart(f: Floats, vs: seq<Value>, rest: string)
    requires vs != [] && Faithful(f, vs[0])
    ensures var s := DumpElements(f, vs) + rest;
            s != [] && !IsSpace(s[0]) && s[0] != ']' && SkipSpace(s) == s
  {
    DumpStart(f, vs[0]);
    assert (DumpElements(f, vs) + rest)[0] == Dump(f, vs[0])[0];
  }

  lemma MembersStart(f: Floats, ms: seq<Member>, rest: string)
    requires ms != []
    ensures var s := DumpMembers(f, ms) + rest;
            s != [] && s[0] == '\"'
  {
    assert Quoted(ms[0].key) <= DumpMember(f, ms[0]) <= DumpMembers(f, ms) <= DumpMembers(f, ms) + rest;
  }

  lemma ElementsText(f: Floats, vs: seq<Value>, rest: string)
    requires vs != []
    ensures DumpElements(f, vs) + rest ==
            Dump(f, vs[0]) + if |vs| == 1 then rest else "," + (DumpElements(f, vs[1..]) + rest)
  {
  }

  lemma {:induction false} ElementsReadBack(f: Floats, vs: seq<Value>, before: seq<Value>, rest: string, depth: nat)
    requires vs != []
    requires forall e :: e in vs ==> Plain(f, e, depth)
    ensures ParseElements(f, DumpElements(f, vs) + ("]" + rest), depth, before) == Some((Arr(before + vs), rest))
    decreases vs, 0
  {
    var s := DumpElements(f, vs) + ("]" + rest);
    assert vs[0] in vs;
    ElementsText(f, vs, "]" + rest);
    if |vs| == 1 {
      ValueReadsBack(f, vs[0], "]" + rest, depth);
      LastElement(f, s, vs[0], rest, depth, before);
      assert vs == [vs[0]];
    } else {
      var more := vs[1..];
      var tail := DumpElements(f, more) + ("]" + rest);
      ValueReadsBack(f, vs[0], "," + tail, depth);
      assert more[0] in vs;
      ElementsStart(f, more, "]" + rest);
      NextElement(f, s, vs[0], tail, depth, before);
      ElementsReadBack(f, more, before + [vs[0]], rest, depth);
      assert before + [vs[0]] + more == before + vs;
    }
  }

  lemma KeyText(escaped: string, text: string)
    ensures var s := "\"" + escaped + "\"" + ":" + text;
            s[0] == '\"' && SkipSpace(s) == s && s[1..] == escaped + "\"" + (":" + text)
  {
  }

  lemma MemberText(f: Floats, m: Member, text: string, rest: string, depth: nat)
    requires ParseValue(f, text, depth) == Some((m.value, rest))
    ensures ParseMember(f, Quoted(m.key) + ":" + text, depth) == Some((m, rest))
  {
    KeyText(EscapedAll(m.key), text);
    StringReadsBack(m.key, ":" + text);
    assert SkipSpace(":" + text) == ":" + text && (":" + text)[1..] == text;
  }

  /** What follows the first member of a written object. */
  function AfterFirst(f: Floats, ms: seq<Member>, rest: string): string
    requires ms != []
  {
    if |ms| == 1 then rest else "," + (DumpMembers(f, ms[1..]) + rest)
  }

  lemma FirstMember(f: Floats, ms: seq<Member>, rest: string, depth: nat)
    requires ms != []
    requires ParseValue(f, Dump(f, ms[0].value) + AfterFirst(f, ms, rest), depth) ==
             Some((ms[0].value, AfterFirst(f, ms, rest)))
    ensures ParseMember(f, DumpMembers(f, ms) + rest, depth) == Some((ms[0], AfterFirst(f, ms, rest)))
  {
    MemberText(f, ms[0], Dump(f, ms[0].value) + AfterFirst(f, ms, rest), AfterFirst(f, ms, rest), depth);
    assert DumpMembers(f, ms) + rest == Quoted(ms[0].key) + ":" + (Dump(f, ms[0].value) + AfterFirst(f, ms, rest));
  }

  lemma FreshKey(before: seq<Member>, ms: seq<Member>)
    requires ms != [] && UniqueKeys(before + ms)
    ensures Put(before, ms[0].key, ms[0].value) == before + [ms[0]]
    ensures before + [ms[0]] + ms[1..] == before + ms
  {
    var all := before + ms;
    assert forall i :: 0 <= i < |before| ==> all[i] == before[i] && all[i].key != all[|before|].key;
    PutNewKey(before, ms[0].key, ms[0].value);
  }

  lemma {:induction false} MembersReadBack(f: Floats, ms: seq<Member>, before: seq<Member>, rest: string, depth: nat)
    requires ms != [] && UniqueKeys(before + ms)
    requires forall m :: m in ms ==> Plain(f, m.value, depth)
    ensures ParseMembers(f, DumpMembers(f, ms) + ("}" + rest), depth, before) == Some((Obj(before + ms), rest))
    decreases ms, 0
  {
    var s := DumpMembers(f, ms) + ("}" + rest);
    assert ms[0] in ms;
    FreshKey(before, ms);
    ValueReadsBack(f, ms[0].value, AfterFirst(f, ms, "}" + rest), depth);
    FirstMember(f, ms, "}" + rest, depth);
    if |ms| == 1 {
      LastMember(f, s, ms[0], rest, depth, before);
      assert ms == [ms[0]];
    } else {
      var more := ms[1..];
      assert AfterFirst(f, ms, "}" + rest) == "," + (DumpMembers(f, more) + ("}" + rest));
      NextMember(f, s, ms[0], DumpMembers(f, more) + ("}" + rest), depth, before);
      assert forall m :: m in more ==> Plain(f, m.value, depth);
      MembersReadBack(f, more, before + [ms[0]], rest, depth);
    }
  }

  // ---- what the parser produces ----

  lemma NumbersCanonical(f: Floats, s: string, room: nat)
    requires s != [] && Number(f, s).Some?
    ensures Canonical(Number(f, s).value.0, room)
  {
  }

  /** Whatever the parser accepts is canonical. */
  lemma {:induction false} ParsedIsCanonical(f: Floats, s: string, depth: nat)
    requires depth <= MAX_DEPTH && ParseValue(f, s, depth).Some?
    ensures Canonical(ParseValue(f, s, depth).value.0, MAX_DEPTH - depth)
    decreases |s|, 0
  {
    var t := SkipSpace(s);
    if t[0] == '[' {
      var u := SkipSpace(t[1..]);
      if !(u != [] && u[0] == ']') {
        ElementsCanonical(f, u, depth + 1, []);
      }
    } else if t[0] == '{' {
      var u := SkipSpace(t[1..]);
      if !(u != [] && u[0] == '}') {
        MembersCanonical(f, u, depth + 1, []);
      }
    } else if t[0] == '-' || IsDigit(t[0]) {
      NumbersCanonical(f, t, MAX_DEPTH - depth);
    }
  }

  lemma {:induction false} ElementsCanonical(f: Floats, s: string, depth: nat, before: seq<Value>)
    requires 0 < depth <= MAX_DEPTH && ParseElements(f, s, depth, before).Some?
    requires forall e :: e in before ==> Canonical(e, MAX_DEPTH - depth)
    ensures Canonical(ParseElements(f, s, depth, before).value.0, MAX_DEPTH - depth + 1)
    decreases |s|, 1
  {
    ParsedIsCanonical(f, s, depth);
    var v := ParseValue(f, s, depth).value;
    var t := SkipSpace(v.1);
    if t[0] == ',' {
      ElementsCanonical(f, SkipSpace(t[1..]), depth, before + [v.0]);
    }
  }

  lemma PutCanonical(before: seq<Member>, m: Member, room: nat)
    requires UniqueKeys(before) && (forall e :: e in before ==> Canonical(e.value, room)) && Canonical(m.value, room)
    ensures var after := Put(before, m.key, m.value);
            UniqueKeys(after) && forall e :: e in after ==> Canonical(e.value, room)
  {
    PutThenFind(before, m.key, m.value);
  }

  lemma {:induction false} MembersCanonical(f: Floats, s: string, depth: nat, before: seq<Member>)
    requires 0 < depth <= MAX_DEPTH && ParseMembers(f, s, depth, before).Some?
    requires UniqueKeys(before) && forall m :: m in before ==> Canonical(m.value, MAX_DEPTH - depth)
    ensures Canonical(ParseMembers(f, s, depth, before).value.0, MAX_DEPTH - depth + 1)
    decreases |s|, 2
  {
    MemberCanonical(f, s, depth);
    var (m, t) := ParseMember(f, s, depth).value;
    var after := Put(before, m.key, m.value);
    PutCanonical(before, m, MAX_DEPTH - depth);
    var u := SkipSpace(t);
    if u[0] == ',' {
      MembersCanonical(f, u[1..], depth, after);
    }
  }

  lemma {:induction false} MemberCanonical(f: Floats, s: string, depth: nat)
    requires depth <= MAX_DEPTH && ParseMember(f, s, depth).Some?
    ensures Canonical(ParseMember(f, s, depth).value.0.value, MAX_DEPTH - depth)
    decreases |s|, 1
  {
    var t := SkipSpace(s);
    var u := SkipSpace(Chars(t[1..]).value.1);
    ParsedIsCanonical(f, u[1..], depth);
  }

  // ---------------------------------------------------------------------------------------------------------------

  /** For values whose doubles the library writes and reads faithfully: the text of a value parses to that value exactly
      when the value is canonical, with at most 64 containers inside one another. */
  lemma RoundTripWithDoubles(f: Floats, v: Value)
    requires Faithful(f, v)
    ensures Parse(f, Dump(f, v)) == Some(v) <==> Canonical(v, MAX_DEPTH)
  {
    var text := Dump(f, v);
    if Canonical(v, MAX_DEPTH) {
      ValueReadsBack(f, v, "", 0);
      assert text + "" == text;
      WholeText(f, text, v);
    }
    if Parse(f, Dump(f, v)) == Some(v) {
      TextIsCanonical(f, text);
    }
  }

  lemma TextIsCanonical(f: Floats, text: string)
    requires Parse(f, text).Some?
    ensures Canonical(Parse(f, text).value, MAX_DEPTH)
  {
    ParsedIsCanonical(f, text, 0);
  }

  lemma WholeText(f: Floats, text: string, v: Value)
    requires ParseValue(f, text, 0) == Some((v, ""))
    ensures Parse(f, text) == Some(v)
  {
  }

  /** So for values without doubles, whatever the library does with doubles. */
  lemma RoundTrip(f: Floats, v: Value)
    requires DoubleFree(v)
    ensures Parse(f, Dump(f, v)) == Some(v) <==> Canonical(v, MAX_DEPTH)
  {
    DoubleFreeIsFaithful(f, v);
    RoundTripWithDoubles(f, v);
  }

  /** Every accepted text without doubles means the same as the compact text of what it means. */
  lemma ReparseIsStable(f: Floats, text: string)
    requires Parse(f, text).Some? && DoubleFree(Parse(f, text).value)
    ensures Parse(f, Dump(f, Parse(f, text).value)) == Parse(f, text)
  {
    TextIsCanonical(f, text);
    RoundTrip(f, Parse(f, text).value);
  }
}
