/** JSON documents and their compact text. A char stands for one byte; nothing depends on its being below 256. */
module JsonValues {
  import opened Basics
  import opened Decimals

  const INT64_MIN: int := -0x8000_0000_0000_0000
  const INT64_MAX: int := 0x7FFF_FFFF_FFFF_FFFF

  /** Members keep their insertion order. A double is its 64 bits. */
  datatype Value =
    | Null
    | Bool(b: bool)
    | Int(i: int)
    | UInt(u: nat)
    | Double(bits: nat)
    | Str(s: string)
    | Arr(elements: seq<Value>)
    | Obj(members: seq<Member>)

  datatype Member = Member(key: string, value: Value)

  /** The standard library's conversions between doubles and text, of which nothing is assumed. */
  datatype Floats = Floats(read: string -> Option<nat>, write: nat -> string)

  /** The value of the first member with this key. */
  function Find(members: seq<Member>, key: string): Option<Value> {
    if members == [] then None
    else if members[0].key == key then Some(members[0].value)
    else Find(members[1..], key)
  }

  /** An existing key keeps its place and takes the new value; a new key goes last. */
  function Put(members: seq<Member>, key: string, value: Value): seq<Member> {
    if members == [] then [Member(key, value)]
    else if members[0].key == key then [Member(key, value)] + members[1..]
    else [members[0]] + Put(members[1..], key, value)
  }

  ghost predicate UniqueKeys(members: seq<Member>) {
    forall i, j :: 0 <= i < j < |members| ==> members[i].key != members[j].key
  }

  lemma {:induction false} PutNewKey(members: seq<Member>, key: string, value: Value)
    requires forall i :: 0 <= i < |members| ==> members[i].key != key
    ensures Put(members, key, value) == members + [Member(key, value)]
  {
    if members != [] {
      PutNewKey(members[1..], key, value);
    }
  }

  /** Putting keeps keys unique, makes the key findable, and leaves the other keys' values alone. */
  lemma {:induction false} PutThenFind(members: seq<Member>, key: string, value: Value)
    ensures var after := Put(members, key, value);
            && (forall k :: Find(after, k) == if k == key then Some(value) else Find(members, k))
            && |members| <= |after| <= |members| + 1
            && (forall i :: 0 <= i < |members| ==> after[i].key == members[i].key)
            && (|after| > |members| ==> after[|members|].key == key
                                        && forall i :: 0 <= i < |members| ==> members[i].key != key)
            && (forall m :: m in after ==> m in members || m == Member(key, value))
  {
    if members != [] && members[0].key != key {
      PutThenFind(members[1..], key, value);
      var after, rest := Put(members, key, value), Put(members[1..], key, value);
      assert after[1..] == rest;
      assert forall i :: 0 < i < |members| ==> members[i] == members[1..][i - 1];
    }
  }

  const HEX: string := "0123456789abcdef"

  /** How one char of a string is written. */
  function Escaped(c: char): string {
    if c == '\"' then "\\\""
    else if c == '\\' then "\\\\"
    else if c == 8 as char then "\\b"
    else if c == 12 as char then "\\f"
    else if c == '\n' then "\\n"
    else if c == '\r' then "\\r"
    else if c == '\t' then "\\t"
    else if c < ' ' then "\\u00" + [HEX[c as int / 16], HEX[c as int % 16]]
    else [c]
  }

  function EscapedAll(s: string): string {
    if s == [] then [] else Escaped(s[0]) + EscapedAll(s[1..])
  }

  function Quoted(s: string): string {
    "\"" + EscapedAll(s) + "\""
  }

  function Signed(i: int): string {
    if i < 0 then "-" + Decimal(-i) else Decimal(i)
  }

  function Dump(f: Floats, v: Value): string
    decreases v, 1
  {
    match v
    case Null => "null"
    case Bool(b) => if b then "true" else "false"
    case Int(i) => Signed(i)
    case UInt(u) => Decimal(u)
    case Double(bits) => f.write(bits)
    case Str(s) => Quoted(s)
    case Arr(elements) => "[" + DumpElements(f, elements) + "]"
    case Obj(members) => "{" + DumpMembers(f, members) + "}"
  }

  function DumpElements(f: Floats, vs: seq<Value>): string
    decreases vs, 0
  {
    if vs == [] then []
    else if |vs| == 1 then Dump(f, vs[0])
    else Dump(f, vs[0]) + "," + DumpElements(f, vs[1..])
  }

  function DumpMember(f: Floats, m: Member): string
    decreases m, 0
  {
    Quoted(m.key) + ":" + Dump(f, m.value)
  }

  function DumpMembers(f: Floats, ms: seq<Member>): string
    decreases ms, 0
  {
    if ms == [] then []
    else if |ms| == 1 then DumpMember(f, ms[0])
    else DumpMember(f, ms[0]) + "," + DumpMembers(f, ms[1..])
  }
}
