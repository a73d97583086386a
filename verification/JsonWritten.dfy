/** What the writer writes is one of those texts, without a space, and with the shortest strings. */
module JsonWritten {
  import opened Basics
  import opened Decimals
  import opened JsonValues
  import opened JsonGrammar
  import opened JsonNumerals
  import opened JsonRoundTrip
  import opened JsonUnicode
  import opened JsonStrings
  import opened JsonSyntax

  // ---- what the writer writes ----

  lemma {:induction false} EscapedJoins(a: string, b: string)
    ensures EscapedAll(a + b) == EscapedAll(a) + EscapedAll(b)
  {
    if a == [] {
      assert a + b == b;
    } else {
      assert (a + b)[1..] == a[1..] + b;
      EscapedJoins(a[1..], b);
    }
  }

  lemma OneEscaped(c: char)
    ensures EscapedAll([c]) == Escaped(c)
  {
    assert [c][1..] == [];
  }

  lemma {:induction false} BytesStandForThemselves(s: string)
    requires forall i :: 0 <= i < |s| ==> s[i] as int >= 0x80
    ensures |EscapedAll(s)| == |s|
  {
    if s != [] {
      BytesStandForThemselves(s[1..]);
    }
  }

  /** No piece stands for what the writer writes in fewer chars. */
  lemma PieceIsNotShorter(p: Piece)
    requires PieceOk(p)
    ensures |EscapedAll(PieceMeaning(p))| <= |PieceText(p)|
  {
    match p
    case Plain(c) => OneEscaped(c);
    case Short(letter) => OneEscaped(PieceMeaning(p)[0]);
    case Coded(v, digits) =>
      CodedLength(v, digits);
      WrittenBytes(v);
  }

  lemma WrittenBytes(v: nat)
    requires IsScalar(v)
    ensures |EscapedAll(Utf8(v))| <= 6
  {
    if v < 0x80 {
      OneEscaped(ByteChar(v));
    } else {
      BytesStandForThemselves(Utf8(v));
    }
  }

  lemma CodedLength(v: nat, digits: seq<string>)
    requires PieceOk(Coded(v, digits))
    ensures |PieceText(Coded(v, digits))| >= 6 && |Utf8(v)| <= 4
  {
    CodesAreRead(digits[0], Utf16(v)[0], "");
  }

  /** The writer's spelling of a string is the shortest there is. */
  lemma {:induction false} WrittenStringIsShortest(ps: seq<Piece>)
    requires PiecesOk(ps)
    ensures |EscapedAll(PiecesMeaning(ps))| <= |PiecesText(ps)|
  {
    if ps != [] {
      PieceIsNotShorter(ps[0]);
      WrittenStringIsShortest(ps[1..]);
      EscapedJoins(PieceMeaning(ps[0]), PiecesMeaning(ps[1..]));
    }
  }

  lemma {:induction false} WrittenString(s: string) returns (ps: seq<Piece>)
    ensures PiecesOk(ps) && PiecesMeaning(ps) == s && PiecesText(ps) == EscapedAll(s)
  {
    StringReadsBack(s, "");
    ps := ReadArePieces(EscapedAll(s) + "\"" + "");
    CutQuote(EscapedAll(s), PiecesText(ps));
  }

  lemma CutQuote(a: string, b: string)
    requires a + "\"" + "" == b + ("\"" + "")
    ensures a == b
  {
    var s := a + "\"" + "";
    assert |a| + 1 == |s| == |b| + 1;
    assert a == s[..|a|] && b == s[..|b|];
  }

  lemma WrittenInteger(f: Floats, i: int) returns (n: Numeral)
    ensures NumeralOk(n) && IsWhole(n) && NumeralText(n) == Signed(i) && WholeValue(n) == i && n.minus == (i < 0)
  {
    DecimalRoundTrip(if i < 0 then -i else i);
    n := Numeral(i < 0, Decimal(if i < 0 then -i else i), None, None);
  }

  /** The writer puts no space anywhere: its text is a well-formed one without gaps that means the value. */
  lemma {:induction false} WrittenIsTight(f: Floats, v: Value, room: nat) returns (t: Tree)
    requires Canonical(v, room) && Faithful(f, v)
    ensures TreeOk(f, t, room) && Tight(t) == t && Meaning(f, t) == v && TreeText(t) == Dump(f, v)
    decreases v, 1
  {
    match v
    case Null => t := NullTree;
    case Bool(b) => t := BoolTree(b);
    case Int(i) => var n := WrittenInteger(f, i); t := NumTree(n);
    case UInt(u) => var n := WrittenInteger(f, u); t := NumTree(n);
    case Double(bits) =>
      var n: Numeral :| NumeralOk(n) && f.write(bits) == NumeralText(n) && NumeralMeaning(f, n) == Some(Double(bits));
      t := NumTree(n);
    case Str(s) => var pieces := WrittenString(s); t := StrTree(pieces);
    case Arr(elements) => var items := WrittenItems(f, elements, room - 1); t := ArrTree("", items);
    case Obj(members) =>
      var entries := WrittenEntries(f, [], members, room - 1);
      t := ObjTree("", entries);
      assert [] + members == members;
  }

  lemma {:induction false} WrittenItems(f: Floats, vs: seq<Value>, room: nat) returns (items: seq<Item>)
    requires forall e :: e in vs ==> Canonical(e, room) && Faithful(f, e)
    ensures ItemsOk(f, items, room) && TightItems(items) == items && Elements(f, items) == vs
    ensures |items| == |vs| && ItemsText(items) == DumpElements(f, vs)
    decreases vs, 0
  {
    if vs == [] {
      items := [];
    } else {
      assert vs[0] in vs;
      var t := WrittenIsTight(f, vs[0], room);
      var more := WrittenItems(f, vs[1..], room);
      items := [Item("", t, "")] + more;
      assert items[1..] == more;
      FirstOfWritten(f, Item("", t, ""), more, vs);
    }
  }

  lemma FirstOfWritten(f: Floats, i: Item, more: seq<Item>, vs: seq<Value>)
    requires vs != [] && i.lead == i.trail == "" && TreeText(i.tree) == Dump(f, vs[0])
    requires |more| == |vs| - 1 && ItemsText(more) == DumpElements(f, vs[1..])
    ensures ItemsText([i] + more) == DumpElements(f, vs)
  {
    assert ([i] + more)[1..] == more && ([i] + more)[0] == i;
    assert ItemText(i) == Dump(f, vs[0]);
  }

  lemma EntryWritten(f: Floats, e: Entry, m: Member)
    requires e.lead == "" && e.colon == "" && e.item.lead == "" && e.item.trail == ""
    requires PiecesText(e.key) == EscapedAll(m.key) && TreeText(e.item.tree) == Dump(f, m.value)
    ensures EntryText(e) == DumpMember(f, m)
  {
    Unpadded(Quoted(m.key), Dump(f, m.value));
  }

  lemma Unpadded(a: string, b: string)
    ensures "" + a + "" + ":" + ("" + b + "") == a + ":" + b
  {
  }

  lemma FirstEntryWritten(f: Floats, e: Entry, more: seq<Entry>, ms: seq<Member>)
    requires ms != [] && EntryText(e) == DumpMember(f, ms[0])
    requires |more| == |ms| - 1 && EntriesText(more) == DumpMembers(f, ms[1..])
    ensures EntriesText([e] + more) == DumpMembers(f, ms)
  {
    assert ([e] + more)[1..] == more && ([e] + more)[0] == e;
  }

  lemma {:induction false} WrittenEntries(f: Floats, before: seq<Member>, ms: seq<Member>, room: nat)
    returns (entries: seq<Entry>)
    requires UniqueKeys(before + ms) && forall m :: m in ms ==> Canonical(m.value, room) && Faithful(f, m.value)
    ensures EntriesOk(f, entries, room) && TightEntries(entries) == entries
    ensures Members(f, before, entries) == before + ms
    ensures |entries| == |ms| && EntriesText(entries) == DumpMembers(f, ms)
    decreases ms, 0
  {
    if ms == [] {
      entries := [];
    } else {
      assert ms[0] in ms;
      var key := WrittenString(ms[0].key);
      var t := WrittenIsTight(f, ms[0].value, room);
      FreshKey(before, ms);
      var more := WrittenEntries(f, before + [ms[0]], ms[1..], room);
      var e := Entry("", key, "", Item("", t, ""));
      entries := [e] + more;
      assert entries[1..] == more;
      assert EntryOk(f, e, room);
      EntryWritten(f, e, ms[0]);
      FirstEntryWritten(f, e, more, ms);
    }
  }
}
