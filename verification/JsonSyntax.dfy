/** The texts of JSON as RFC 8259 writes them. The parser accepts exactly these texts, up to 64 containers deep, and
    makes of each what it means. */
module JsonSyntax {
  import opened Basics
  import opened JsonValues
  import opened JsonGrammar
  import opened JsonNumerals
  import opened JsonRoundTrip
  import opened JsonStrings

  // ---- values ----

  /** A text taken apart. `inner` is what stands between the brackets of an empty container. */
  datatype Tree =
    | NullTree
    | BoolTree(b: bool)
    | NumTree(n: Numeral)
    | StrTree(pieces: seq<Piece>)
    | ArrTree(inner: string, items: seq<Item>)
    | ObjTree(within: string, entries: seq<Entry>)

  datatype Item = Item(lead: string, tree: Tree, trail: string)

  datatype Entry = Entry(lead: string, key: seq<Piece>, colon: string, item: Item)

  function TreeText(t: Tree): string
    decreases t, 1
  {
    match t
    case NullTree => "null"
    case BoolTree(b) => if b then "true" else "false"
    case NumTree(n) => NumeralText(n)
    case StrTree(pieces) => "\"" + PiecesText(pieces) + "\""
    case ArrTree(inner, items) => "[" + (if items == [] then inner else ItemsText(items)) + "]"
    case ObjTree(inner, entries) => "{" + (if entries == [] then inner else EntriesText(entries)) + "}"
  }

  function ItemText(i: Item): string
    decreases i, 2
  {
    i.lead + TreeText(i.tree) + i.trail
  }

  function ItemsText(items: seq<Item>): string
    decreases items, 0
  {
    if items == [] then "" else ItemText(items[0]) + if |items| == 1 then "" else "," + ItemsText(items[1..])
  }

  function EntryText(e: Entry): string
    decreases e, 0
  {
    e.lead + ("\"" + PiecesText(e.key) + "\"") + e.colon + ":" + ItemText(e.item)
  }

  function EntriesText(entries: seq<Entry>): string
    decreases entries, 0
  {
    if entries == [] then ""
    else EntryText(entries[0]) + if |entries| == 1 then "" else "," + EntriesText(entries[1..])
  }

  /** Well-formed, with room for so many containers inside one another. */
  ghost predicate TreeOk(f: Floats, t: Tree, room: nat)
    decreases t, 1
  {
    match t
    case NumTree(n) => NumeralOk(n) && NumeralMeaning(f, n).Some?
    case StrTree(pieces) => PiecesOk(pieces)
    case ArrTree(inner, items) => room > 0 && Gap(inner) && ItemsOk(f, items, room - 1)
    case ObjTree(inner, entries) => room > 0 && Gap(inner) && EntriesOk(f, entries, room - 1)
    case _ => true
  }

  ghost predicate ItemOk(f: Floats, i: Item, room: nat)
    decreases i, 2
  {
    Gap(i.lead) && Gap(i.trail) && TreeOk(f, i.tree, room)
  }

  ghost predicate ItemsOk(f: Floats, items: seq<Item>, room: nat)
    decreases items, 0
  {
    items == [] || (ItemOk(f, items[0], room) && ItemsOk(f, items[1..], room))
  }

  ghost predicate EntryOk(f: Floats, e: Entry, room: nat)
    decreases e, 0
  {
    Gap(e.lead) && PiecesOk(e.key) && Gap(e.colon) && ItemOk(f, e.item, room)
  }

  ghost predicate EntriesOk(f: Floats, entries: seq<Entry>, room: nat)
    decreases entries, 0
  {
    entries == [] || (EntryOk(f, entries[0], room) && EntriesOk(f, entries[1..], room))
  }

  /** What a text means; of members with one key the last counts, at the place of the first. */
  function Meaning(f: Floats, t: Tree): Value
    decreases t, 1
  {
    match t
    case NullTree => Null
    case BoolTree(b) => Bool(b)
    case NumTree(n) => if NumeralMeaning(f, n).Some? then NumeralMeaning(f, n).value else Null
    case StrTree(pieces) => Str(PiecesMeaning(pieces))
    case ArrTree(_, items) => Arr(Elements(f, items))
    case ObjTree(_, entries) => Obj(Members(f, [], entries))
  }

  function Elements(f: Floats, items: seq<Item>): seq<Value>
    decreases items, 0
  {
    if items == [] then [] else [Meaning(f, items[0].tree)] + Elements(f, items[1..])
  }

  function Members(f: Floats, before: seq<Member>, entries: seq<Entry>): seq<Member>
    decreases entries, 0
  {
    if entries == [] then before
    else Members(f, Put(before, PiecesMeaning(entries[0].key), Meaning(f, entries[0].item.tree)), entries[1..])
  }

  // ---- every text is read ----

  /** A value starts with something other than a space or a closing bracket. */
  lemma TreeStart(f: Floats, t: Tree, room: nat)
    requires TreeOk(f, t, room)
    ensures TreeText(t) != [] && !IsSpace(TreeText(t)[0]) && TreeText(t)[0] != ']' && TreeText(t)[0] != '}'
  {
    if t.NumTree? {
      NumeralStart(t.n);
    }
  }

  lemma NotSkipped(s: string)
    requires s != [] && !IsSpace(s[0])
    ensures SkipSpace(s) == s
  {
  }

  lemma SameFromSkipped(f: Floats, s: string, depth: nat)
    ensures ParseValue(f, SkipSpace(s), depth) == ParseValue(f, s, depth)
  {
    var w := SkippedIsGap(s);
  }

  lemma LeadIsSkipped(f: Floats, w: string, s: string, depth: nat)
    requires Gap(w)
    ensures ParseValue(f, w + s, depth) == ParseValue(f, s, depth)
  {
    GapIsSkipped(w, s);
  }

  /** What may follow a value: nothing, a space, a comma or a closing bracket. */
  predicate Closes(rest: string) {
    rest == [] || Gap(rest[..1]) || rest[0] == ',' || rest[0] == ']' || rest[0] == '}'
  }

  lemma ClosesStops(rest: string)
    requires Closes(rest)
    ensures Stops(rest)
  {
    if rest != [] {
      assert rest[..1][0] == rest[0];
    }
  }

  lemma GapCloses(w: string, c: char, rest: string)
    requires Gap(w) && (c == ',' || c == ']' || c == '}')
    ensures Closes(w + ([c] + rest))
  {
    if w != [] {
      assert (w + ([c] + rest))[..1] == [w[0]];
    }
  }

  lemma WordIsRead(f: Floats, t: Tree, rest: string, depth: nat)
    requires t.NullTree? || t.BoolTree?
    ensures ParseValue(f, TreeText(t) + rest, depth) == Some((Meaning(f, t), rest))
  {
    AtomReadsBack(f, Meaning(f, t), rest, depth);
  }

  lemma NumIsRead(f: Floats, n: Numeral, rest: string, depth: nat)
    requires NumeralOk(n) && NumeralMeaning(f, n).Some? && Closes(rest)
    ensures ParseValue(f, NumeralText(n) + rest, depth) == Some((NumeralMeaning(f, n).value, rest))
  {
    ClosesStops(rest);
    NumeralStart(n);
    NumeralIsRead(f, n, rest);
    NumberLeads(f, NumeralText(n) + rest, depth);
  }

  lemma QuotedIsRead(f: Floats, pieces: seq<Piece>, rest: string, depth: nat)
    requires PiecesOk(pieces)
    ensures ParseValue(f, "\"" + PiecesText(pieces) + "\"" + rest, depth) == Some((Str(PiecesMeaning(pieces)), rest))
  {
    var inside := PiecesText(pieces) + ("\"" + rest);
    PiecesAreRead(pieces, rest);
    StringLeads(f, inside, depth);
    InThree("\"", PiecesText(pieces), "\"", rest);
  }

  lemma StringLeads(f: Floats, inside: string, depth: nat)
    ensures var r := Chars(inside);
            ParseValue(f, "\"" + inside, depth) == if r.None? then None else Some((Str(r.value.0), r.value.1))
  {
    NotSkipped("\"" + inside);
    assert ("\"" + inside)[1..] == inside;
  }

  /** A well-formed text is read as what it means, whatever may follow it. */
  lemma {:induction false} TreeIsRead(f: Floats, t: Tree, rest: string, depth: nat)
    requires depth <= MAX_DEPTH && TreeOk(f, t, MAX_DEPTH - depth) && Closes(rest)
    ensures ParseValue(f, TreeText(t) + rest, depth) == Some((Meaning(f, t), rest))
    decreases t, 1
  {
    match t
    case NullTree => WordIsRead(f, t, rest, depth);
    case BoolTree(_) => WordIsRead(f, t, rest, depth);
    case NumTree(n) => NumIsRead(f, n, rest, depth);
    case StrTree(pieces) => QuotedIsRead(f, pieces, rest, depth);
    case ArrTree(inner, items) => ArrIsRead(f, inner, items, rest, depth);
    case ObjTree(inner, entries) => ObjIsRead(f, inner, entries, rest, depth);
  }

  lemma {:induction false} ArrIsRead(f: Floats, inner: string, items: seq<Item>, rest: string, depth: nat)
    requires depth <= MAX_DEPTH && TreeOk(f, ArrTree(inner, items), MAX_DEPTH - depth)
    ensures ParseValue(f, TreeText(ArrTree(inner, items)) + rest, depth) == Some((Arr(Elements(f, items)), rest))
    decreases items, 1
  {
    if items == [] {
      EmptyArray(f, inner, rest, depth);
    } else {
      ItemsAreRead(f, items, [], rest, depth + 1);
      FullArray(f, inner, items, rest, depth);
    }
  }

  lemma {:induction false} ObjIsRead(f: Floats, inner: string, entries: seq<Entry>, rest: string, depth: nat)
    requires depth <= MAX_DEPTH && TreeOk(f, ObjTree(inner, entries), MAX_DEPTH - depth)
    ensures ParseValue(f, TreeText(ObjTree(inner, entries)) + rest, depth) ==
            Some((Obj(Members(f, [], entries)), rest))
    decreases entries, 1
  {
    if entries == [] {
      EmptyObject(f, inner, rest, depth);
    } else {
      EntriesAreRead(f, entries, [], rest, depth + 1);
      FullObject(f, inner, entries, rest, depth);
    }
  }

  lemma FullArray(f: Floats, inner: string, items: seq<Item>, rest: string, depth: nat)
    requires depth < MAX_DEPTH && items != [] && ItemsOk(f, items, MAX_DEPTH - depth - 1)
    ensures ParseValue(f, TreeText(ArrTree(inner, items)) + rest, depth) ==
            ParseElements(f, ItemsText(items) + ("]" + rest), depth + 1, [])
    ensures [] + Elements(f, items) == Elements(f, items)
  {
    var body := ItemsText(items) + ("]" + rest);
    ItemsStart(f, items, "]" + rest, MAX_DEPTH - depth - 1);
    OpensArray(f, body, depth);
    InThree("[", ItemsText(items), "]", rest);
  }

  lemma FullObject(f: Floats, inner: string, entries: seq<Entry>, rest: string, depth: nat)
    requires depth < MAX_DEPTH && entries != [] && EntriesOk(f, entries, MAX_DEPTH - depth - 1)
    ensures ParseValue(f, TreeText(ObjTree(inner, entries)) + rest, depth) ==
            ParseMembers(f, EntriesText(entries) + ("}" + rest), depth + 1, [])
  {
    var body := EntriesText(entries) + ("}" + rest);
    EntriesStart(f, entries, "}" + rest, MAX_DEPTH - depth - 1);
    OpensObject(f, body, depth);
    InThree("{", EntriesText(entries), "}", rest);
  }

  lemma EmptyArray(f: Floats, inner: string, rest: string, depth: nat)
    requires depth < MAX_DEPTH && Gap(inner)
    ensures ParseValue(f, "[" + inner + "]" + rest, depth) == Some((Arr([]), rest))
  {
    var s := "[" + inner + "]" + rest;
    NotSkipped(s);
    assert s[1..] == inner + ("]" + rest);
    GapIsSkipped(inner, "]" + rest);
    NotSkipped("]" + rest);
    assert ("]" + rest)[1..] == rest;
  }

  lemma EmptyObject(f: Floats, inner: string, rest: string, depth: nat)
    requires depth < MAX_DEPTH && Gap(inner)
    ensures ParseValue(f, "{" + inner + "}" + rest, depth) == Some((Obj([]), rest))
  {
    var s := "{" + inner + "}" + rest;
    NotSkipped(s);
    assert s[1..] == inner + ("}" + rest);
    GapIsSkipped(inner, "}" + rest);
    NotSkipped("}" + rest);
    assert ("}" + rest)[1..] == rest;
  }

  /** An array whose first char after spaces does not close it. */
  lemma OpensArray(f: Floats, body: string, depth: nat)
    requires depth < MAX_DEPTH && SkipSpace(body) != [] && SkipSpace(body)[0] != ']'
    ensures ParseValue(f, "[" + body, depth) == ParseElements(f, body, depth + 1, [])
  {
    var s := "[" + body;
    NotSkipped(s);
    assert s[1..] == body;
    SameFromSkipped(f, body, depth + 1);
  }

  lemma OpensObject(f: Floats, body: string, depth: nat)
    requires depth < MAX_DEPTH && SkipSpace(body) != [] && SkipSpace(body)[0] != '}'
    ensures ParseValue(f, "{" + body, depth) == ParseMembers(f, body, depth + 1, [])
  {
    var s := "{" + body;
    NotSkipped(s);
    assert s[1..] == body;
    SkippedMembers(f, body, depth + 1, []);
  }

  lemma SkippedMembers(f: Floats, s: string, depth: nat, before: seq<Member>)
    ensures ParseMembers(f, SkipSpace(s), depth, before) == ParseMembers(f, s, depth, before)
  {
    var w := SkippedIsGap(s);
    assert ParseMember(f, SkipSpace(s), depth) == ParseMember(f, s, depth);
  }

  lemma InThree(a: string, b: string, c: string, tail: string)
    ensures a + b + c + tail == a + (b + (c + tail))
  {
  }

  lemma ItemsStart(f: Floats, items: seq<Item>, tail: string, room: nat)
    requires items != [] && ItemsOk(f, items, room)
    ensures var s := SkipSpace(ItemsText(items) + tail); s != [] && s[0] != ']'
  {
    var i := items[0];
    TreeStart(f, i.tree, room);
    var next := if |items| == 1 then tail else [','] + (ItemsText(items[1..]) + tail);
    FirstItem(items, tail);
    var more := i.trail + next;
    InThree(i.lead, TreeText(i.tree), i.trail, next);
    GapIsSkipped(i.lead, TreeText(i.tree) + more);
    NotSkipped(TreeText(i.tree) + more);
  }

  lemma EntriesStart(f: Floats, entries: seq<Entry>, tail: string, room: nat)
    requires entries != [] && EntriesOk(f, entries, room)
    ensures var s := SkipSpace(EntriesText(entries) + tail); s != [] && s[0] != '}'
  {
    var e := entries[0];
    var next := if |entries| == 1 then tail else [','] + (EntriesText(entries[1..]) + tail);
    FirstEntry(entries, tail);
    EntryInParts(e, next);
    var more := PiecesText(e.key) + ("\"" + (e.colon + (":" + (ItemText(e.item) + next))));
    GapIsSkipped(e.lead, "\"" + more);
    NotSkipped("\"" + more);
  }

  /** One item, and then a comma or the closing bracket. */
  lemma {:induction false} ItemIsRead(f: Floats, i: Item, c: char, rest: string, depth: nat)
    requires depth <= MAX_DEPTH && ItemOk(f, i, MAX_DEPTH - depth) && (c == ',' || c == ']' || c == '}')
    ensures var r := ParseValue(f, ItemText(i) + ([c] + rest), depth);
            r == Some((Meaning(f, i.tree), i.trail + ([c] + rest))) && SkipSpace(r.value.1) == [c] + rest
    decreases i, 2
  {
    var tail := i.trail + ([c] + rest);
    GapCloses(i.trail, c, rest);
    TreeIsRead(f, i.tree, tail, depth);
    LeadIsSkipped(f, i.lead, TreeText(i.tree) + tail, depth);
    InThree(i.lead, TreeText(i.tree), i.trail, [c] + rest);
    GapIsSkipped(i.trail, [c] + rest);
    NotSkipped([c] + rest);
  }

  lemma FirstItem(items: seq<Item>, tail: string)
    requires items != []
    ensures ItemsText(items) + tail ==
            ItemText(items[0]) + if |items| == 1 then tail else [','] + (ItemsText(items[1..]) + tail)
  {
    if |items| == 1 {
      NothingMore(ItemText(items[0]), tail);
    } else {
      CommaThen(ItemText(items[0]), ItemsText(items[1..]), tail);
    }
  }

  lemma NothingMore(a: string, tail: string)
    ensures a + "" + tail == a + tail
  {
  }

  lemma CommaThen(a: string, b: string, tail: string)
    ensures a + ("," + b) + tail == a + ([','] + (b + tail))
  {
  }

  lemma FirstEntry(entries: seq<Entry>, tail: string)
    requires entries != []
    ensures EntriesText(entries) + tail ==
            EntryText(entries[0]) + if |entries| == 1 then tail else [','] + (EntriesText(entries[1..]) + tail)
  {
    if |entries| == 1 {
      NothingMore(EntryText(entries[0]), tail);
    } else {
      CommaThen(EntryText(entries[0]), EntriesText(entries[1..]), tail);
    }
  }

  lemma {:induction false} LastItem(f: Floats, i: Item, before: seq<Value>, rest: string, depth: nat)
    requires depth <= MAX_DEPTH && ItemOk(f, i, MAX_DEPTH - depth)
    ensures ParseElements(f, ItemText(i) + ([']'] + rest), depth, before) ==
            Some((Arr(before + [Meaning(f, i.tree)]), rest))
    decreases i, 3
  {
    ItemIsRead(f, i, ']', rest, depth);
    ElementCloses(f, ItemText(i) + ([']'] + rest), rest, depth, before);
  }

  lemma {:induction false} OneItem(f: Floats, i: Item, before: seq<Value>, tail: string, depth: nat)
    requires depth <= MAX_DEPTH && ItemOk(f, i, MAX_DEPTH - depth)
    ensures ParseElements(f, ItemText(i) + ([','] + tail), depth, before) ==
            ParseElements(f, tail, depth, before + [Meaning(f, i.tree)])
    decreases i, 3
  {
    ItemIsRead(f, i, ',', tail, depth);
    ElementGoesOn(f, ItemText(i) + ([','] + tail), tail, depth, before);
  }

  lemma {:induction false} ItemsAreRead(f: Floats, items: seq<Item>, before: seq<Value>, rest: string, depth: nat)
    requires items != [] && depth <= MAX_DEPTH && ItemsOk(f, items, MAX_DEPTH - depth)
    ensures ParseElements(f, ItemsText(items) + ("]" + rest), depth, before) ==
            Some((Arr(before + Elements(f, items)), rest))
    decreases items, 0
  {
    var v := Meaning(f, items[0].tree);
    FirstItem(items, "]" + rest);
    if |items| == 1 {
      LastItem(f, items[0], before, rest, depth);
      assert Elements(f, items) == [v];
    } else {
      OneItem(f, items[0], before, ItemsText(items[1..]) + ("]" + rest), depth);
      ItemsAreRead(f, items[1..], before + [v], rest, depth);
      assert before + [v] + Elements(f, items[1..]) == before + Elements(f, items);
    }
  }

  lemma ElementCloses(f: Floats, s: string, rest: string, depth: nat, before: seq<Value>)
    requires ParseValue(f, s, depth).Some? && SkipSpace(ParseValue(f, s, depth).value.1) == [']'] + rest
    ensures ParseElements(f, s, depth, before) == Some((Arr(before + [ParseValue(f, s, depth).value.0]), rest))
  {
    assert ([']'] + rest)[1..] == rest;
  }

  lemma ElementGoesOn(f: Floats, s: string, tail: string, depth: nat, before: seq<Value>)
    requires ParseValue(f, s, depth).Some? && SkipSpace(ParseValue(f, s, depth).value.1) == [','] + tail
    ensures ParseElements(f, s, depth, before) ==
            ParseElements(f, tail, depth, before + [ParseValue(f, s, depth).value.0])
  {
    assert ([','] + tail)[1..] == tail;
    SkippedElements(f, tail, depth, before + [ParseValue(f, s, depth).value.0]);
  }

  lemma MemberCloses(f: Floats, s: string, rest: string, depth: nat, before: seq<Member>)
    requires ParseMember(f, s, depth).Some? && SkipSpace(ParseMember(f, s, depth).value.1) == ['}'] + rest
    ensures var m := ParseMember(f, s, depth).value.0;
            ParseMembers(f, s, depth, before) == Some((Obj(Put(before, m.key, m.value)), rest))
  {
    assert (['}'] + rest)[1..] == rest;
  }

  lemma MemberGoesOn(f: Floats, s: string, tail: string, depth: nat, before: seq<Member>)
    requires ParseMember(f, s, depth).Some? && SkipSpace(ParseMember(f, s, depth).value.1) == [','] + tail
    ensures var m := ParseMember(f, s, depth).value.0;
            ParseMembers(f, s, depth, before) == ParseMembers(f, tail, depth, Put(before, m.key, m.value))
  {
    assert ([','] + tail)[1..] == tail;
  }

  lemma SkippedElements(f: Floats, s: string, depth: nat, before: seq<Value>)
    ensures ParseElements(f, SkipSpace(s), depth, before) == ParseElements(f, s, depth, before)
  {
    SameFromSkipped(f, s, depth);
  }

  lemma {:induction false} LastEntry(f: Floats, e: Entry, before: seq<Member>, rest: string, depth: nat)
    requires depth <= MAX_DEPTH && EntryOk(f, e, MAX_DEPTH - depth)
    ensures ParseMembers(f, EntryText(e) + (['}'] + rest), depth, before) ==
            Some((Obj(Put(before, PiecesMeaning(e.key), Meaning(f, e.item.tree))), rest))
    decreases e, 1
  {
    EntryIsRead(f, e, '}', rest, depth);
    MemberCloses(f, EntryText(e) + (['}'] + rest), rest, depth, before);
  }

  lemma {:induction false} OneEntry(f: Floats, e: Entry, before: seq<Member>, tail: string, depth: nat)
    requires depth <= MAX_DEPTH && EntryOk(f, e, MAX_DEPTH - depth)
    ensures ParseMembers(f, EntryText(e) + ([','] + tail), depth, before) ==
            ParseMembers(f, tail, depth, Put(before, PiecesMeaning(e.key), Meaning(f, e.item.tree)))
    decreases e, 1
  {
    EntryIsRead(f, e, ',', tail, depth);
    MemberGoesOn(f, EntryText(e) + ([','] + tail), tail, depth, before);
  }

  lemma {:induction false} EntriesAreRead(f: Floats, entries: seq<Entry>, before: seq<Member>, rest: string, depth: nat)
    requires entries != [] && depth <= MAX_DEPTH && EntriesOk(f, entries, MAX_DEPTH - depth)
    ensures ParseMembers(f, EntriesText(entries) + ("}" + rest), depth, before) ==
            Some((Obj(Members(f, before, entries)), rest))
    decreases entries, 0
  {
    var e := entries[0];
    FirstEntry(entries, "}" + rest);
    if |entries| == 1 {
      LastEntry(f, e, before, rest, depth);
    } else {
      OneEntry(f, e, before, EntriesText(entries[1..]) + ("}" + rest), depth);
      EntriesAreRead(f, entries[1..], Put(before, PiecesMeaning(e.key), Meaning(f, e.item.tree)), rest, depth);
    }
  }

  lemma EntryInParts(e: Entry, tail: string)
    ensures EntryText(e) + tail ==
            e.lead + ("\"" + (PiecesText(e.key) + ("\"" + (e.colon + (":" + (ItemText(e.item) + tail))))))
  {
  }

  lemma {:induction false} EntryIsRead(f: Floats, e: Entry, c: char, rest: string, depth: nat)
    requires depth <= MAX_DEPTH && EntryOk(f, e, MAX_DEPTH - depth) && (c == ',' || c == ']' || c == '}')
    ensures var r := ParseMember(f, EntryText(e) + ([c] + rest), depth);
            && r.Some? && r.value.0 == Member(PiecesMeaning(e.key), Meaning(f, e.item.tree))
            && SkipSpace(r.value.1) == [c] + rest
    decreases e, 0
  {
    ItemIsRead(f, e.item, c, rest, depth);
    KeyIsRead(f, e, ItemText(e.item) + ([c] + rest), depth);
    EntryInParts(e, [c] + rest);
  }

  lemma KeyIsRead(f: Floats, e: Entry, tail: string, depth: nat)
    requires Gap(e.lead) && PiecesOk(e.key) && Gap(e.colon)
    ensures var s := e.lead + ("\"" + (PiecesText(e.key) + ("\"" + (e.colon + (":" + tail)))));
            var v := ParseValue(f, tail, depth);
            ParseMember(f, s, depth) ==
            if v.None? then None else Some((Member(PiecesMeaning(e.key), v.value.0), v.value.1))
  {
    var afterKey := e.colon + (":" + tail);
    var inKey := PiecesText(e.key) + ("\"" + afterKey);
    GapIsSkipped(e.lead, "\"" + inKey);
    NotSkipped("\"" + inKey);
    assert ("\"" + inKey)[1..] == inKey;
    PiecesAreRead(e.key, afterKey);
    GapIsSkipped(e.colon, ":" + tail);
    NotSkipped(":" + tail);
    assert (":" + tail)[1..] == tail;
  }

  // ---- whatever is read is such a text ----

  lemma {:induction false} ReadIsTree(f: Floats, s: string, depth: nat) returns (lead: string, t: Tree)
    requires depth <= MAX_DEPTH && ParseValue(f, s, depth).Some?
    ensures Gap(lead) && TreeOk(f, t, MAX_DEPTH - depth) && Meaning(f, t) == ParseValue(f, s, depth).value.0
    ensures s == lead + (TreeText(t) + ParseValue(f, s, depth).value.1)
    decreases |s|, 2
  {
    lead := SkippedIsGap(s);
    SameFromSkipped(f, s, depth);
    t := ReadStartsTree(f, SkipSpace(s), depth);
  }

  /** A value with no space before it. */
  lemma {:induction false} ReadStartsTree(f: Floats, u: string, depth: nat) returns (t: Tree)
    requires depth <= MAX_DEPTH && SkipSpace(u) == u && ParseValue(f, u, depth).Some?
    ensures TreeOk(f, t, MAX_DEPTH - depth) && Meaning(f, t) == ParseValue(f, u, depth).value.0
    ensures u == TreeText(t) + ParseValue(f, u, depth).value.1
    decreases |u|, 1
  {
    match u[0]
    case '[' => t := ReadIsArray(f, u, depth);
    case '{' => t := ReadIsObject(f, u, depth);
    case _ => t := ReadIsAtom(f, u, depth);
  }

  lemma ReadIsAtom(f: Floats, u: string, depth: nat) returns (t: Tree)
    requires SkipSpace(u) == u && u != [] && u[0] != '[' && u[0] != '{' && ParseValue(f, u, depth).Some?
    ensures TreeOk(f, t, 0) && !t.ArrTree? && !t.ObjTree? && Meaning(f, t) == ParseValue(f, u, depth).value.0
    ensures u == TreeText(t) + ParseValue(f, u, depth).value.1
  {
    if u[0] == 'n' {
      t := NullTree;
    } else if u[0] == 't' || u[0] == 'f' {
      t := BoolTree(u[0] == 't');
    } else if u[0] == '\"' {
      t := ReadIsQuoted(f, u, depth);
    } else {
      NumberLeads(f, u, depth);
      var n := ReadIsNumeral(f, u);
      t := NumTree(n);
    }
  }

  lemma ReadIsQuoted(f: Floats, u: string, depth: nat) returns (t: Tree)
    requires u != [] && u[0] == '\"' && ParseValue(f, u, depth).Some?
    ensures TreeOk(f, t, 0) && t.StrTree? && Meaning(f, t) == ParseValue(f, u, depth).value.0
    ensures u == TreeText(t) + ParseValue(f, u, depth).value.1
  {
    assert u == "\"" + u[1..];
    StringLeads(f, u[1..], depth);
    var pieces := ReadArePieces(u[1..]);
    t := StrTree(pieces);
    InThree("\"", PiecesText(pieces), "\"", Chars(u[1..]).value.1);
  }

  lemma TooDeep(f: Floats, u: string, depth: nat)
    requires u != [] && (u[0] == '[' || u[0] == '{') && ParseValue(f, u, depth).Some?
    ensures depth < MAX_DEPTH
  {
    NotSkipped(u);
  }

  lemma ReadIsEmptyArray(f: Floats, u: string, depth: nat) returns (t: Tree)
    requires u != [] && u[0] == '[' && ParseValue(f, u, depth).Some?
    requires SkipSpace(u[1..]) == [] || SkipSpace(u[1..])[0] == ']'
    ensures TreeOk(f, t, 1) && t.ArrTree? && t.items == [] && ParseValue(f, u, depth).value.0 == Arr([])
    ensures u == TreeText(t) + ParseValue(f, u, depth).value.1
  {
    var inner := SkippedIsGap(u[1..]);
    var skipped := SkipSpace(u[1..]);
    NotSkipped(u);
    NothingToRead(f, skipped, depth + 1);
    t := ArrTree(inner, []);
    assert skipped == "]" + skipped[1..] && u == "[" + u[1..];
    InThree("[", inner, "]", skipped[1..]);
  }

  lemma ReadIsEmptyObject(f: Floats, u: string, depth: nat) returns (t: Tree)
    requires u != [] && u[0] == '{' && ParseValue(f, u, depth).Some?
    requires SkipSpace(u[1..]) == [] || SkipSpace(u[1..])[0] == '}'
    ensures TreeOk(f, t, 1) && t.ObjTree? && t.entries == [] && ParseValue(f, u, depth).value.0 == Obj([])
    ensures u == TreeText(t) + ParseValue(f, u, depth).value.1
  {
    var inner := SkippedIsGap(u[1..]);
    var skipped := SkipSpace(u[1..]);
    NotSkipped(u);
    NothingToRead(f, skipped, depth + 1);
    t := ObjTree(inner, []);
    assert skipped == "}" + skipped[1..] && u == "{" + u[1..];
    InThree("{", inner, "}", skipped[1..]);
  }

  lemma NothingToRead(f: Floats, s: string, depth: nat)
    ensures s == [] ==> ParseElements(f, s, depth, []).None? && ParseMembers(f, s, depth, []).None?
  {
  }

  lemma {:induction false} ReadIsArray(f: Floats, u: string, depth: nat) returns (t: Tree)
    requires depth <= MAX_DEPTH && u != [] && u[0] == '[' && ParseValue(f, u, depth).Some?
    ensures TreeOk(f, t, MAX_DEPTH - depth) && Meaning(f, t) == ParseValue(f, u, depth).value.0
    ensures u == TreeText(t) + ParseValue(f, u, depth).value.1
    decreases |u|, 0
  {
    var rest := ParseValue(f, u, depth).value.1;
    assert u == "[" + u[1..];
    TooDeep(f, u, depth);
    var skipped := SkipSpace(u[1..]);
    if skipped == [] || skipped[0] == ']' {
      t := ReadIsEmptyArray(f, u, depth);
    } else {
      OpensArray(f, u[1..], depth);
      var items := ReadAreItems(f, u[1..], depth + 1, []);
      t := ArrTree("", items);
      assert [] + Elements(f, items) == Elements(f, items);
      InThree("[", ItemsText(items), "]", rest);
    }
  }

  lemma {:induction false} ReadIsObject(f: Floats, u: string, depth: nat) returns (t: Tree)
    requires depth <= MAX_DEPTH && u != [] && u[0] == '{' && ParseValue(f, u, depth).Some?
    ensures TreeOk(f, t, MAX_DEPTH - depth) && Meaning(f, t) == ParseValue(f, u, depth).value.0
    ensures u == TreeText(t) + ParseValue(f, u, depth).value.1
    decreases |u|, 0
  {
    var rest := ParseValue(f, u, depth).value.1;
    assert u == "{" + u[1..];
    TooDeep(f, u, depth);
    var skipped := SkipSpace(u[1..]);
    if skipped == [] || skipped[0] == '}' {
      t := ReadIsEmptyObject(f, u, depth);
    } else {
      OpensObject(f, u[1..], depth);
      var entries := ReadAreEntries(f, u[1..], depth + 1, []);
      t := ObjTree("", entries);
      InThree("{", EntriesText(entries), "}", rest);
    }
  }

  lemma {:induction false} ReadIsItem(f: Floats, s: string, depth: nat) returns (i: Item)
    requires depth <= MAX_DEPTH && ParseValue(f, s, depth).Some?
    ensures ItemOk(f, i, MAX_DEPTH - depth) && Meaning(f, i.tree) == ParseValue(f, s, depth).value.0
    ensures s == ItemText(i) + SkipSpace(ParseValue(f, s, depth).value.1)
    decreases |s|, 3
  {
    var lead, t := ReadIsTree(f, s, depth);
    var after := ParseValue(f, s, depth).value.1;
    var trail := SkippedIsGap(after);
    i := Item(lead, t, trail);
    InThree(lead, TreeText(t), trail, SkipSpace(after));
  }

  lemma {:induction false} ReadAreItems(f: Floats, s: string, depth: nat, before: seq<Value>) returns (items: seq<Item>)
    requires depth <= MAX_DEPTH && ParseElements(f, s, depth, before).Some?
    ensures items != [] && ItemsOk(f, items, MAX_DEPTH - depth)
    ensures ParseElements(f, s, depth, before).value.0 == Arr(before + Elements(f, items))
    ensures s == ItemsText(items) + ("]" + ParseElements(f, s, depth, before).value.1)
    decreases |s|, 4
  {
    var i := ReadIsItem(f, s, depth);
    var v := ParseValue(f, s, depth).value;
    var t := SkipSpace(v.1);
    var end := "]" + ParseElements(f, s, depth, before).value.1;
    assert t == [t[0]] + t[1..];
    if t[0] == ']' {
      ElementCloses(f, s, t[1..], depth, before);
      items := [i];
      FirstItem(items, end);
      assert Elements(f, items) == [v.0];
    } else {
      ElementGoesOn(f, s, t[1..], depth, before);
      var more := ReadAreItems(f, t[1..], depth, before + [v.0]);
      items := [i] + more;
      assert items[1..] == more;
      FirstItem(items, end);
      assert before + [v.0] + Elements(f, more) == before + Elements(f, items);
    }
  }

  lemma {:induction false} ReadIsEntry(f: Floats, s: string, depth: nat) returns (e: Entry)
    requires depth <= MAX_DEPTH && ParseMember(f, s, depth).Some?
    ensures EntryOk(f, e, MAX_DEPTH - depth)
    ensures ParseMember(f, s, depth).value.0 == Member(PiecesMeaning(e.key), Meaning(f, e.item.tree))
    ensures s == EntryText(e) + SkipSpace(ParseMember(f, s, depth).value.1)
    decreases |s|, 3
  {
    var lead, key, colon, tail := ReadIsKey(f, s, depth);
    var i := ReadIsItem(f, tail, depth);
    e := Entry(lead, key, colon, i);
    EntryInParts(e, SkipSpace(ParseMember(f, s, depth).value.1));
  }

  lemma ReadIsKey(f: Floats, s: string, depth: nat)
    returns (lead: string, key: seq<Piece>, colon: string, tail: string)
    requires ParseMember(f, s, depth).Some?
    ensures Gap(lead) && PiecesOk(key) && Gap(colon) && |tail| < |s| && ParseValue(f, tail, depth).Some?
    ensures var v := ParseValue(f, tail, depth).value;
            ParseMember(f, s, depth).value == (Member(PiecesMeaning(key), v.0), v.1)
    ensures s == lead + ("\"" + (PiecesText(key) + ("\"" + (colon + (":" + tail)))))
  {
    lead := SkippedIsGap(s);
    var t := SkipSpace(s);
    key := ReadArePieces(t[1..]);
    var afterKey := Chars(t[1..]).value.1;
    colon := SkippedIsGap(afterKey);
    var u := SkipSpace(afterKey);
    tail := u[1..];
    assert t == "\"" + t[1..] && u == ":" + tail;
  }

  lemma {:induction false} ReadAreEntries(f: Floats, s: string, depth: nat, before: seq<Member>)
    returns (entries: seq<Entry>)
    requires depth <= MAX_DEPTH && ParseMembers(f, s, depth, before).Some?
    ensures entries != [] && EntriesOk(f, entries, MAX_DEPTH - depth)
    ensures ParseMembers(f, s, depth, before).value.0 == Obj(Members(f, before, entries))
    ensures s == EntriesText(entries) + ("}" + ParseMembers(f, s, depth, before).value.1)
    decreases |s|, 5
  {
    var e := ReadIsEntry(f, s, depth);
    var m := ParseMember(f, s, depth).value;
    var t := SkipSpace(m.1);
    var end := "}" + ParseMembers(f, s, depth, before).value.1;
    assert t == [t[0]] + t[1..];
    if t[0] == '}' {
      MemberCloses(f, s, t[1..], depth, before);
      entries := [e];
      FirstEntry(entries, end);
    } else {
      MemberGoesOn(f, s, t[1..], depth, before);
      var more := ReadAreEntries(f, t[1..], depth, Put(before, m.0.key, m.0.value));
      entries := [e] + more;
      assert entries[1..] == more;
      FirstEntry(entries, end);
    }
  }

  // ---------------------------------------------------------------------------------------------------------------

  /** This text, with spaces around it, spells the value. */
  ghost predicate SpellsOut(f: Floats, text: string, v: Value, lead: string, t: Tree, trail: string) {
    Gap(lead) && Gap(trail) && TreeOk(f, t, 64) && Meaning(f, t) == v && text == lead + TreeText(t) + trail
  }

  /** The parser accepts exactly the well-formed texts, with spaces, tabs, line feeds and carriage returns between
      tokens and no other char skipped, at most 64 containers deep, and makes of them what they mean. */
  lemma ParsesExactlyJson(f: Floats, text: string, v: Value)
    ensures Parse(f, text) == Some(v) <==> exists lead, t, trail :: SpellsOut(f, text, v, lead, t, trail)
  {
    if Parse(f, text) == Some(v) {
      var lead, t, trail := ParsedIsSpelled(f, text);
    }
    if lead, t, trail :| SpellsOut(f, text, v, lead, t, trail) {
      SpelledIsParsed(f, lead, t, trail);
    }
  }

  lemma ParsedIsSpelled(f: Floats, text: string) returns (lead: string, t: Tree, trail: string)
    requires Parse(f, text).Some?
    ensures SpellsOut(f, text, Parse(f, text).value, lead, t, trail)
  {
    lead, t := ReadIsTree(f, text, 0);
    trail := SkippedIsGap(ParseValue(f, text, 0).value.1);
    assert trail + "" == trail;
    assert lead + (TreeText(t) + trail) == lead + TreeText(t) + trail;
  }

  lemma SpelledIsParsed(f: Floats, lead: string, t: Tree, trail: string)
    requires Gap(lead) && Gap(trail) && TreeOk(f, t, MAX_DEPTH)
    ensures Parse(f, lead + TreeText(t) + trail) == Some(Meaning(f, t))
  {
    assert Closes(trail);
    TreeIsRead(f, t, trail, 0);
    LeadIsSkipped(f, lead, TreeText(t) + trail, 0);
    assert lead + TreeText(t) + trail == lead + (TreeText(t) + trail);
    GapIsSkipped(trail, "");
    assert trail + "" == trail;
  }

  // ---- spaces between tokens ----

  /** The same tokens without the spaces between them. */
  function Tight(t: Tree): Tree
    decreases t, 1
  {
    match t
    case ArrTree(_, items) => ArrTree("", TightItems(items))
    case ObjTree(_, entries) => ObjTree("", TightEntries(entries))
    case _ => t
  }

  function TightItem(i: Item): Item
    decreases i, 2
  {
    Item("", Tight(i.tree), "")
  }

  function TightItems(items: seq<Item>): seq<Item>
    decreases items, 0
  {
    if items == [] then [] else [TightItem(items[0])] + TightItems(items[1..])
  }

  function TightEntries(entries: seq<Entry>): seq<Entry>
    decreases entries, 0
  {
    if entries == [] then []
    else [Entry("", entries[0].key, "", TightItem(entries[0].item))] + TightEntries(entries[1..])
  }

  lemma {:induction false} TightMeansTheSame(f: Floats, t: Tree, room: nat)
    requires TreeOk(f, t, room)
    ensures TreeOk(f, Tight(t), room) && Meaning(f, Tight(t)) == Meaning(f, t)
    decreases t, 1
  {
    match t
    case ArrTree(_, items) => TightItemsMeanTheSame(f, items, room - 1);
    case ObjTree(_, entries) => TightEntriesMeanTheSame(f, entries, [], room - 1);
    case _ =>
  }

  lemma {:induction false} TightItemsMeanTheSame(f: Floats, items: seq<Item>, room: nat)
    requires ItemsOk(f, items, room)
    ensures ItemsOk(f, TightItems(items), room) && Elements(f, TightItems(items)) == Elements(f, items)
    decreases items, 0
  {
    if items != [] {
      TightMeansTheSame(f, items[0].tree, room);
      TightItemsMeanTheSame(f, items[1..], room);
      assert TightItems(items)[1..] == TightItems(items[1..]);
    }
  }

  lemma {:induction false} TightEntriesMeanTheSame(f: Floats, entries: seq<Entry>, before: seq<Member>, room: nat)
    requires EntriesOk(f, entries, room)
    ensures EntriesOk(f, TightEntries(entries), room)
    ensures Members(f, before, TightEntries(entries)) == Members(f, before, entries)
    decreases entries, 0
  {
    if entries != [] {
      var e := entries[0];
      assert EntryOk(f, e, room) && ItemOk(f, e.item, room);
      TightMeansTheSame(f, e.item.tree, room);
      assert EntryOk(f, Entry("", e.key, "", TightItem(e.item)), room);
      TightEntriesMeanTheSame(f, entries[1..], Put(before, PiecesMeaning(e.key), Meaning(f, e.item.tree)), room);
      assert TightEntries(entries)[1..] == TightEntries(entries[1..]);
    }
  }

  /** A text that is the compact text of a canonical double-free value, but for spaces before, after and between its
      tokens, is read as that value. */
  lemma SpacesDoNotMatter(f: Floats, v: Value, lead: string, t: Tree, trail: string)
    requires DoubleFree(v) && Canonical(v, MAX_DEPTH)
    requires Gap(lead) && Gap(trail) && TreeOk(f, t, MAX_DEPTH) && TreeText(Tight(t)) == Dump(f, v)
    ensures Parse(f, lead + TreeText(t) + trail) == Some(v)
  {
    SpelledIsParsed(f, lead, t, trail);
    TightMeansTheSame(f, t, MAX_DEPTH);
    SpelledIsParsed(f, "", Tight(t), "");
    assert "" + Dump(f, v) + "" == Dump(f, v);
    RoundTrip(f, v);
  }
}
