/** The binary NBT format of cNBT/nbt_parsing.c as functions on bytes: what dumping a tree writes and what
    parsing reads. Memory is taken to be available. */
module NbtFormat {
  type Byte = b: int | 0 <= b < 256

  const TAG_INVALID: Byte := 0
  const TAG_BYTE_ARRAY: Byte := 7
  const TAG_STRING: Byte := 8
  const TAG_LIST: Byte := 9
  const TAG_COMPOUND: Byte := 10
  const TAG_INT_ARRAY: Byte := 11
  const TAG_LONG_ARRAY: Byte := 12

  const SHORT_MAX: nat := 32767
  const INT_MAX: nat := 2147483647

  /** A possibly null C string: the bytes that were stored, without the terminating null. */
  datatype Name = Null | Named(text: seq<Byte>)

  /** An nbt_node. A number's tag is one of the six number types (floats by their bit pattern); any other tag
      there stands for a node of unknown type. A list keeps the type of its sentinel. */
  datatype Node =
    | Number(name: Name, tag: Byte, value: int)
    | Array(name: Name, tag: Byte, data: seq<int>)
    | Text(name: Name, text: seq<Byte>)
    | List(name: Name, elem: Byte, items: seq<Node>)
    | Compound(name: Name, items: seq<Node>)

  function TypeOf(t: Node): Byte {
    match t
    case Number(_, tag, _) => tag
    case Array(_, tag, _) => tag
    case Text(_, _) => TAG_STRING
    case List(_, _, _) => TAG_LIST
    case Compound(_, _) => TAG_COMPOUND
  }

  /** The bytes of a number's payload; zero for a type that is not a number. */
  function Width(tag: Byte): nat {
    if tag == 1 then 1 else if tag == 2 then 2 else if tag == 3 || tag == 5 then 4 else if tag == 4 || tag == 6 then 8
      else 0
  }

  /** The bytes of an array's element; zero for a type that is not an array. */
  function Stride(tag: Byte): nat {
    if tag == TAG_BYTE_ARRAY then 1 else if tag == TAG_INT_ARRAY then 4 else if tag == TAG_LONG_ARRAY then 8 else 0
  }

  // Numbers.

  /** The low w bytes of v in two's complement, the highest byte first. */
  function Encode(w: nat, v: int): (s: seq<Byte>)
    ensures |s| == w
  {
    if w == 0 then [] else Encode(w - 1, v / 256) + [v % 256]
  }

  /** The value of bytes in two's complement, the highest byte first. */
  function Decode(s: seq<Byte>): int {
    if s == [] then 0
    else if |s| == 1 then if s[0] >= 128 then s[0] - 256 else s[0]
    else Decode(s[..|s| - 1]) * 256 + s[|s| - 1]
  }

  /** v is a signed number of w bytes. */
  predicate Fits(w: nat, v: int) {
    if w == 0 then v == 0 else if w == 1 then -128 <= v < 128 else Fits(w - 1, v / 256)
  }

  /** The elements of an array, each of w bytes; those of a byte array are unsigned. */
  function EncodeAll(w: nat, data: seq<int>): (s: seq<Byte>) {
    if data == [] then [] else Encode(w, data[0]) + EncodeAll(w, data[1..])
  }

  function Element(tag: Byte, s: seq<Byte>): int {
    if tag == TAG_BYTE_ARRAY && s != [] then s[0] else Decode(s)
  }

  /** The bytes of n elements. */
  function Room(tag: Byte, n: nat): nat { n * Stride(tag) }

  function DecodeAll(tag: Byte, n: nat, s: seq<Byte>): (data: seq<int>)
    requires |s| >= Room(tag, n)
    ensures |data| == n
  {
    if n == 0 then [] else [Element(tag, s[..Stride(tag)])] + DecodeAll(tag, n - 1, s[Stride(tag)..])
  }

  // Dumping.

  datatype Dump = Refused | Dumped(bytes: seq<Byte>)

  function Then(a: Dump, b: Dump): Dump {
    if a.Dumped? && b.Dumped? then Dumped(a.bytes + b.bytes) else Refused
  }

  /** strlen() */
  function StrLen(s: seq<Byte>): (n: nat)
    ensures n <= |s|
  {
    if s == [] || s[0] == 0 then 0 else 1 + StrLen(s[1..])
  }

  function DumpString(s: seq<Byte>): Dump {
    var n := StrLen(s);
    if n > SHORT_MAX then Refused else Dumped(Encode(2, n) + s[..n])
  }

  /** list_is_homogenous(): the one type of all the items, the sentinel's if there are none. */
  function ListType(elem: Byte, items: seq<Node>): Byte {
    if items == [] then elem
    else if forall i :: 0 <= i < |items| ==> TypeOf(items[i]) == TypeOf(items[0]) then TypeOf(items[0]) else TAG_INVALID
  }

  function DumpPayload(t: Node): Dump
    decreases t, 0
  {
    match t
    case Number(_, tag, value) => if Width(tag) == 0 then Refused else Dumped(Encode(Width(tag), value))
    case Array(_, tag, data) => if Stride(tag) == 0 then Refused
      else Dumped(Encode(4, |data|) + EncodeAll(Stride(tag), data))
    case Text(_, text) => DumpString(text)
    case List(_, elem, items) =>
      if |items| > INT_MAX || ListType(elem, items) == TAG_INVALID then Refused
      else Then(Dumped([ListType(elem, items)] + Encode(4, |items|)), DumpItems(false, items))
    case Compound(_, items) => Then(DumpItems(true, items), Dumped([0]))
  }

  function DumpName(name: Name): Dump {
    if name.Null? then Dumped([]) else DumpString(name.text)
  }

  /** __dump_binary() */
  function DumpNode(dumpType: bool, t: Node): Dump
    decreases t, 1
  {
    Then(Dumped(if dumpType then [TypeOf(t)] else []), Then(DumpName(t.name), DumpPayload(t)))
  }

  function DumpItems(dumpType: bool, items: seq<Node>): Dump
    decreases items, 2
  {
    if items == [] then Dumped([]) else Then(DumpNode(dumpType, items[0]), DumpItems(dumpType, items[1..]))
  }

  // Parsing.

  datatype Parsed<T> = Failed | Parsed(value: T, rest: seq<Byte>)

  /** READ_GENERIC of n bytes. */
  function Take(n: nat, s: seq<Byte>): Parsed<seq<Byte>> {
    if |s| < n then Failed else Parsed(s[..n], s[n..])
  }

  function ParseNumber(n: nat, s: seq<Byte>): Parsed<int> {
    if |s| < n then Failed else Parsed(Decode(s[..n]), s[n..])
  }

  function ParseString(s: seq<Byte>): (r: Parsed<seq<Byte>>)
    ensures r.Parsed? ==> |r.rest| + 2 + |r.value| == |s|
  {
    if |s| < 2 || Decode(s[..2]) < 0 then Failed else Take(Decode(s[..2]), s[2..])
  }

  function ParseArray(tag: Byte, s: seq<Byte>): (r: Parsed<seq<int>>)
    requires Stride(tag) != 0
    ensures r.Parsed? ==> |r.rest| + 4 <= |s|
  {
    if |s| < 4 || Decode(s[..4]) < 0 then Failed else
    var n := Decode(s[..4]);
    if |s[4..]| < Room(tag, n) then Failed
    else Parsed(DecodeAll(tag, n, s[4..]), s[4..][Room(tag, n)..])
  }

  /** parse_unnamed_tag(): every node takes at least one byte. */
  function ParsePayload(tag: Byte, name: Name, s: seq<Byte>): (r: Parsed<Node>)
    ensures r.Parsed? ==> |r.rest| < |s|
    decreases |s|, 2
  {
    if Width(tag) != 0 then
      var v := ParseNumber(Width(tag), s);
      if v.Failed? then Failed else Parsed(Number(name, tag, v.value), v.rest)
    else if Stride(tag) != 0 then
      var a := ParseArray(tag, s);
      if a.Failed? then Failed else Parsed(Array(name, tag, a.value), a.rest)
    else if tag == TAG_STRING then
      var a := ParseString(s);
      if a.Failed? then Failed else Parsed(Text(name, a.value), a.rest)
    else if tag == TAG_LIST then
      if |s| < 5 then Failed else
      var items := ParseItems(s[0], Decode(s[1..5]), s[5..]);
      if items.Failed? then Failed
      else Parsed(List(name, if s[0] == TAG_INVALID then TAG_COMPOUND else s[0], items.value), items.rest)
    else if tag == TAG_COMPOUND then
      var items := ParseFields(s);
      if items.Failed? then Failed else Parsed(Compound(name, items.value), items.rest)
    else Failed
  }

  /** The elements of a list, n of them; a negative count reads none. */
  function ParseItems(tag: Byte, n: int, s: seq<Byte>): (r: Parsed<seq<Node>>)
    ensures r.Parsed? ==> |r.rest| <= |s|
    decreases |s|, 3
  {
    if n <= 0 then Parsed([], s) else
    var first := ParsePayload(tag, Null, s);
    if first.Failed? then Failed else
    Prepend([first.value], ParseItems(tag, n - 1, first.rest))
  }

  /** The fields of a compound up to its end tag. */
  function ParseFields(s: seq<Byte>): (r: Parsed<seq<Node>>)
    ensures r.Parsed? ==> |r.rest| < |s|
    decreases |s|, 1
  {
    if s == [] then Failed
    else if s[0] == 0 then Parsed([], s[1..]) else
    var first := ParseNamed(s);
    if first.Failed? then Failed else
    Prepend([first.value], ParseFields(first.rest))
  }

  /** parse_named_tag(): a type, a name and the payload. */
  function ParseNamed(s: seq<Byte>): (r: Parsed<Node>)
    ensures r.Parsed? ==> |r.rest| < |s|
    decreases |s|, 0
  {
    if s == [] then Failed else
    var name := ParseString(s[1..]);
    if name.Failed? then Failed else ParsePayload(s[0], Named(name.value), name.rest)
  }

  function Prepend(a: seq<Node>, r: Parsed<seq<Node>>): Parsed<seq<Node>> {
    if r.Failed? then Failed else Parsed(a + r.value, r.rest)
  }
}
