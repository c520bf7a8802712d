/** The binary NBT format of cNBT/nbt_parsing.c byte by byte: what is read from given bytes and which bytes are written,
    in numbers. */
module NbtBytes {
  import opened NbtFormat

  // Signed numbers, the highest byte first.

  function Word8(s: seq<int>, i: nat): int
    requires i + 1 <= |s|
  {
    if s[i] >= 0x80 then s[i] - 0x100 else s[i]
  }

  function Word16(s: seq<int>, i: nat): int
    requires i + 2 <= |s|
  {
    var x := 0x100 * s[i] + s[i + 1];
    if x >= 0x8000 then x - 0x1_0000 else x
  }

  function Word32(s: seq<int>, i: nat): int
    requires i + 4 <= |s|
  {
    var x := 0x100_0000 * s[i] + 0x1_0000 * s[i + 1] + 0x100 * s[i + 2] + s[i + 3];
    if x >= 0x8000_0000 then x - 0x1_0000_0000 else x
  }

  function Word64(s: seq<int>, i: nat): int
    requires i + 8 <= |s|
  {
    var x := 0x100_0000_0000_0000 * s[i] + 0x1_0000_0000_0000 * s[i + 1] + 0x100_0000_0000 * s[i + 2] +
             0x1_0000_0000 * s[i + 3] + 0x100_0000 * s[i + 4] + 0x1_0000 * s[i + 5] + 0x100 * s[i + 6] + s[i + 7];
    if x >= 0x8000_0000_0000_0000 then x - 0x1_0000_0000_0000_0000 else x
  }

  lemma DecodeStep(s: seq<Byte>, n: nat)
    requires 1 <= n < |s|
    ensures Decode(s[..n + 1]) == 0x100 * Decode(s[..n]) + s[n]
  {
    assert s[..n + 1][..n] == s[..n];
  }

  lemma DecodeOne(s: seq<Byte>)
    requires |s| >= 1
    ensures Decode(s[..1]) == Word8(s, 0)
  {
  }

  lemma DecodeFew(s: seq<Byte>)
    ensures |s| >= 2 ==> Decode(s[..2]) == Word16(s, 0)
    ensures |s| >= 4 ==> Decode(s[..4]) == Word32(s, 0)
  {
    hide Decode;
    if |s| >= 2 {
      DecodeOne(s);
      DecodeStep(s, 1);
    }
    if |s| >= 4 {
      DecodeStep(s, 2);
      DecodeStep(s, 3);
    }
  }

  lemma DecodeEight(s: seq<Byte>)
    requires |s| >= 8
    ensures Decode(s[..8]) == Word64(s, 0)
  {
    hide Decode;
    DecodeFew(s);
    DecodeStep(s, 4);
    DecodeStep(s, 5);
    DecodeStep(s, 6);
    DecodeStep(s, 7);
  }

  // What is read.

  /** Numbers of one, two, four and eight bytes; floats are given by their bits. Fewer bytes are an error. */
  lemma NumberRead(name: Name, s: seq<Byte>)
    ensures ParsePayload(1, name, s) == if |s| < 1 then Failed else Parsed(Number(name, 1, Word8(s, 0)), s[1..])
    ensures ParsePayload(2, name, s) == if |s| < 2 then Failed else Parsed(Number(name, 2, Word16(s, 0)), s[2..])
    ensures ParsePayload(3, name, s) == if |s| < 4 then Failed else Parsed(Number(name, 3, Word32(s, 0)), s[4..])
    ensures ParsePayload(4, name, s) == if |s| < 8 then Failed else Parsed(Number(name, 4, Word64(s, 0)), s[8..])
    ensures ParsePayload(5, name, s) == if |s| < 4 then Failed else Parsed(Number(name, 5, Word32(s, 0)), s[4..])
    ensures ParsePayload(6, name, s) == if |s| < 8 then Failed else Parsed(Number(name, 6, Word64(s, 0)), s[8..])
  {
    hide Decode, Word8, Word16, Word32, Word64;
    if |s| >= 1 { DecodeOne(s); }
    DecodeFew(s);
    if |s| >= 8 { DecodeEight(s); }
  }

  lemma RoomNext(tag: Byte, i: nat)
    ensures Room(tag, 0) == 0 && Room(tag, i + 1) == Stride(tag) + Room(tag, i)
  {
  }

  lemma {:induction false} ElementAt(tag: Byte, n: nat, s: seq<Byte>, i: nat)
    requires |s| >= Room(tag, n) && i < n
    ensures Room(tag, i) + Stride(tag) <= |s|
    ensures DecodeAll(tag, n, s)[i] == Element(tag, s[Room(tag, i)..Room(tag, i) + Stride(tag)])
    decreases n
  {
    hide Element, Stride, Room;
    var w := Stride(tag);
    RoomNext(tag, n - 1);
    if i > 0 {
      RoomNext(tag, i - 1);
      ElementAt(tag, n - 1, s[w..], i - 1);
      assert s[w..][Room(tag, i - 1)..Room(tag, i - 1) + w] == s[Room(tag, i)..Room(tag, i) + w];
    }
  }

  /** The three arrays: a count of four bytes, then elements of one unsigned byte, of four and of eight bytes. */
  lemma ArrayRead(name: Name, s: seq<Byte>)
    ensures |s| < 4 || Word32(s, 0) < 0 ==>
      ParsePayload(7, name, s) == ParsePayload(11, name, s) == ParsePayload(12, name, s) == Failed
    ensures |s| >= 4 && Word32(s, 0) >= 0 ==> var n := Word32(s, 0);
      && CountRead(7, 1, n, name, s) && CountRead(11, 4, n, name, s) && CountRead(12, 8, n, name, s)
  {
    hide Decode, DecodeAll, Word32, CountRead, Room;
    DecodeFew(s);
    if |s| >= 4 && Word32(s, 0) >= 0 {
      ArrayCase(7, 1, name, s);
      ArrayCase(11, 4, name, s);
      ArrayCase(12, 8, name, s);
    }
  }

  /** An array of n elements, w bytes each, behind its count. */
  ghost predicate CountRead(tag: Byte, w: nat, n: nat, name: Name, s: seq<Byte>) {
    var r := ParsePayload(tag, name, s);
    && (|s| < 4 + n * w ==> r == Failed)
    && (|s| >= 4 + n * w ==> r.Parsed? && r.rest == s[4 + n * w..] && r.value.Array?)
    && (|s| >= 4 + n * w ==> r.value.name == name && r.value.tag == tag && |r.value.data| == n)
    && (|s| >= 4 + n * w ==> forall i: nat :: i < n ==> ElementIs(w, r.value.data[i], s[4..], i))
  }

  ghost predicate ElementIs(w: nat, v: int, s: seq<Byte>, i: nat) {
    && 0 <= w * i && w * i + w <= |s|
    && (w == 1 ==> v == s[i]) && (w == 4 ==> v == Word32(s, 4 * i)) && (w == 8 ==> v == Word64(s, 8 * i))
  }

  lemma ArrayCase(tag: Byte, w: nat, name: Name, s: seq<Byte>)
    requires (tag == 7 && w == 1) || (tag == 11 && w == 4) || (tag == 12 && w == 8)
    requires |s| >= 4 && Word32(s, 0) >= 0
    ensures CountRead(tag, w, Word32(s, 0), name, s)
  {
    hide Decode, DecodeAll, Word32, ElementIs, Room;
    var n := Word32(s, 0);
    DecodeFew(s);
    RoomIs(tag, w, n);
    if |s| >= 4 + n * w {
      var data := DecodeAll(tag, n, s[4..]);
      assert s[4..][n * w..] == s[4 + n * w..];
      forall i: nat | i < n ensures ElementIs(w, data[i], s[4..], i) { OneElement(tag, w, n, s[4..], i); }
    }
  }

  lemma RoomIs(tag: Byte, w: nat, n: nat)
    requires (tag == 7 && w == 1) || (tag == 11 && w == 4) || (tag == 12 && w == 8)
    ensures Stride(tag) == w && Room(tag, n) == n * w == w * n
  {
  }

  lemma OneElement(tag: Byte, w: nat, n: nat, s: seq<Byte>, i: nat)
    requires (tag == 7 && w == 1) || (tag == 11 && w == 4) || (tag == 12 && w == 8)
    requires |s| >= Room(tag, n) && i < n
    ensures ElementIs(w, DecodeAll(tag, n, s)[i], s, i)
  {
    hide Decode, DecodeAll, Room, Stride;
    ElementAt(tag, n, s, i);
    RoomIs(tag, w, i);
    var e := s[w * i..w * i + w];
    assert e[..w] == e;
    if w == 4 {
      DecodeFew(e);
    } else if w == 8 {
      DecodeEight(e);
    }
  }

  lemma StringRead(s: seq<Byte>)
    ensures ParseString(s) ==
      if |s| < 2 || Word16(s, 0) < 0 || |s| < 2 + Word16(s, 0) then Failed
      else Parsed(s[2..2 + Word16(s, 0)], s[2 + Word16(s, 0)..])
  {
    hide Decode, Word16;
    DecodeFew(s);
    if |s| >= 2 && Word16(s, 0) >= 0 && |s| >= 2 + Word16(s, 0) {
      var n := Word16(s, 0);
      assert s[2..][..n] == s[2..2 + n] && s[2..][n..] == s[2 + n..];
    }
  }

  /** A string: a count of two bytes, then so many bytes. */
  lemma TextRead(name: Name, s: seq<Byte>)
    ensures ParsePayload(8, name, s) ==
      if |s| < 2 || Word16(s, 0) < 0 || |s| < 2 + Word16(s, 0) then Failed
      else Parsed(Text(name, s[2..2 + Word16(s, 0)]), s[2 + Word16(s, 0)..])
  {
    hide ParseString, Word16;
    StringRead(s);
  }

  /** A list: the type of its items and a count of four bytes, then the items without type and name. An empty list of
      type 0 becomes one of compounds. */
  lemma ListRead(name: Name, s: seq<Byte>)
    ensures |s| < 5 ==> ParsePayload(9, name, s) == Failed
    ensures |s| >= 5 ==> var items := ParseItems(s[0], Word32(s, 1), s[5..]);
      ParsePayload(9, name, s) ==
      if items.Failed? then Failed else Parsed(List(name, if s[0] == 0 then 10 else s[0], items.value), items.rest)
  {
    hide Decode, Word32, ParseItems;
    if |s| >= 5 {
      DecodeFew(s[1..]);
      assert s[1..][..4] == s[1..5];
      ShiftedWord(s);
    }
  }

  lemma ShiftedWord(s: seq<Byte>)
    requires |s| >= 5
    ensures Word32(s[1..], 0) == Word32(s, 1)
  {
  }

  /** The items of a list follow each other, as many as the count says and none for a negative one. */
  lemma {:induction false} ItemsRead(tag: Byte, n: int, at: seq<seq<Byte>>, items: seq<Node>)
    requires |at| == |items| + 1 && |items| <= if n < 0 then 0 else n
    requires forall i :: 0 <= i < |items| ==> ParsePayload(tag, Null, at[i]) == Parsed(items[i], at[i + 1])
    ensures n <= |items| ==> ParseItems(tag, n, at[0]) == Parsed(items, at[|items|])
    ensures n > |items| && ParsePayload(tag, Null, at[|items|]).Failed? ==> ParseItems(tag, n, at[0]) == Failed
    decreases |items|
  {
    hide ParsePayload;
    if items != [] {
      ItemsRead(tag, n - 1, at[1..], items[1..]);
      assert [items[0]] + items[1..] == items;
    }
  }

  /** The fields of a compound follow each other up to a zero byte. */
  lemma {:induction false} FieldsRead(at: seq<seq<Byte>>, items: seq<Node>)
    requires |at| == |items| + 1 && forall i :: 0 <= i < |items| ==> at[i] != [] && at[i][0] != 0
    requires forall i :: 0 <= i < |items| ==> ParseNamed(at[i]) == Parsed(items[i], at[i + 1])
    ensures var end := at[|items|];
      && (end == [] || (end[0] != 0 && ParseNamed(end).Failed?) ==> ParseFields(at[0]) == Failed)
      && (end != [] && end[0] == 0 ==> ParseFields(at[0]) == Parsed(items, end[1..]))
    decreases |items|
  {
    hide ParseNamed;
    if items != [] {
      FieldsRead(at[1..], items[1..]);
      assert [items[0]] + items[1..] == items;
    }
  }

  /** A compound: named nodes up to a zero byte. */
  lemma CompoundRead(name: Name, at: seq<seq<Byte>>, items: seq<Node>)
    requires |at| == |items| + 1 && forall i :: 0 <= i < |items| ==> at[i] != [] && at[i][0] != 0
    requires forall i :: 0 <= i < |items| ==> ParseNamed(at[i]) == Parsed(items[i], at[i + 1])
    ensures var end := at[|items|];
      && (end == [] || (end[0] != 0 && ParseNamed(end).Failed?) ==> ParsePayload(10, name, at[0]) == Failed)
      && (end != [] && end[0] == 0 ==> ParsePayload(10, name, at[0]) == Parsed(Compound(name, items), end[1..]))
  {
    hide ParseNamed, ParseFields;
    FieldsRead(at, items);
  }

  /** A named node: its type, the length of its name in two bytes, the name, and the payload. */
  lemma NamedRead(s: seq<Byte>)
    ensures ParseNamed(s) ==
      if |s| < 3 || Word16(s, 1) < 0 || |s| < 3 + Word16(s, 1) then Failed
      else ParsePayload(s[0], Named(s[3..3 + Word16(s, 1)]), s[3 + Word16(s, 1)..])
  {
    hide ParseString, ParsePayload, Word16;
    if |s| >= 3 { ShiftedShort(s); }
    if s != [] {
      StringRead(s[1..]);
      if |s| >= 3 && Word16(s, 1) >= 0 && |s| >= 3 + Word16(s, 1) {
        Shifted(s, Word16(s, 1));
      }
    }
  }

  lemma Shifted(s: seq<Byte>, n: nat)
    requires 3 + n <= |s|
    ensures s[1..][2..2 + n] == s[3..3 + n] && s[1..][2 + n..] == s[3 + n..]
  {
  }

  lemma ShiftedShort(s: seq<Byte>)
    requires |s| >= 3
    ensures Word16(s[1..], 0) == Word16(s, 1)
  {
  }

  /** No other types are read. */
  lemma OtherRead(tag: Byte, name: Name, s: seq<Byte>)
    requires tag == 0 || tag > 12
    ensures ParsePayload(tag, name, s) == Failed
  {
  }

  // What is written.

  /** The bytes of a number, the highest first, in two's complement. */
  function Bytes2(v: int): seq<Byte> { [v / 0x100 % 0x100, v % 0x100] }

  function Bytes4(v: int): seq<Byte> { Bytes2(v / 0x1_0000) + Bytes2(v) }

  function Bytes8(v: int): seq<Byte> { Bytes4(v / 0x1_0000_0000) + Bytes4(v) }

  lemma Quotients(v: int)
    ensures v / 0x100 / 0x100 == v / 0x1_0000
  {
  }

  lemma EncodeTwo(w: nat, v: int)
    ensures Encode(w + 2, v) == Encode(w, v / 0x1_0000) + Bytes2(v)
  {
    Quotients(v);
    assert Encode(w + 2, v) == Encode(w + 1, v / 0x100) + [v % 0x100];
    assert Encode(w + 1, v / 0x100) == Encode(w, v / 0x100 / 0x100) + [v / 0x100 % 0x100];
  }

  lemma EncodeFour(w: nat, v: int)
    ensures Encode(w + 4, v) == Encode(w, v / 0x1_0000_0000) + Bytes4(v)
  {
    hide Encode, Bytes2;
    EncodeTwo(w + 2, v);
    EncodeTwo(w, v / 0x1_0000);
    assert v / 0x1_0000 / 0x1_0000 == v / 0x1_0000_0000;
  }

  lemma EncodeIs(v: int)
    ensures Encode(1, v) == [v % 0x100] && Encode(2, v) == Bytes2(v) && Encode(4, v) == Bytes4(v)
    ensures Encode(8, v) == Bytes8(v)
  {
    hide Bytes2, Bytes4;
    EncodeTwo(0, v);
    EncodeFour(0, v);
    EncodeFour(4, v);
    EncodeFour(0, v / 0x1_0000_0000);
  }

  /** Numbers take one, two, four and eight bytes. */
  lemma NumberWritten(name: Name, v: int)
    ensures DumpPayload(Number(name, 1, v)) == Dumped([v % 0x100])
    ensures DumpPayload(Number(name, 2, v)) == Dumped(Bytes2(v))
    ensures DumpPayload(Number(name, 3, v)) == DumpPayload(Number(name, 5, v)) == Dumped(Bytes4(v))
    ensures DumpPayload(Number(name, 4, v)) == DumpPayload(Number(name, 6, v)) == Dumped(Bytes8(v))
  {
    hide Encode, Bytes2, Bytes4, Bytes8;
    EncodeIs(v);
  }

  /** The elements of an array, written one behind the other. */
  function Joined(w: nat, data: seq<int>): seq<Byte> {
    if data == [] then [] else
    var first := if w == 1 then [data[0] % 0x100] else if w == 4 then Bytes4(data[0]) else Bytes8(data[0]);
    first + Joined(w, data[1..])
  }

  lemma {:induction false} JoinedIs(w: nat, data: seq<int>)
    requires w == 1 || w == 4 || w == 8
    ensures EncodeAll(w, data) == Joined(w, data)
  {
    hide Encode, Bytes4, Bytes8;
    if data != [] {
      EncodeIs(data[0]);
      JoinedIs(w, data[1..]);
    }
  }

  /** Arrays have a count of four bytes and elements of one, four and eight. */
  lemma ArrayWritten(name: Name, data: seq<int>)
    ensures DumpPayload(Array(name, 7, data)) == Dumped(Bytes4(|data|) + Joined(1, data))
    ensures DumpPayload(Array(name, 11, data)) == Dumped(Bytes4(|data|) + Joined(4, data))
    ensures DumpPayload(Array(name, 12, data)) == Dumped(Bytes4(|data|) + Joined(8, data))
  {
    hide Encode, EncodeAll, Bytes4, Joined;
    EncodeIs(|data|);
    JoinedIs(1, data);
    JoinedIs(4, data);
    JoinedIs(8, data);
  }

  /** A string has a count of two bytes; more than 32767 are refused. It ends at its first zero byte. */
  lemma TextWritten(name: Name, text: seq<Byte>)
    requires forall i :: 0 <= i < |text| ==> text[i] != 0
    ensures DumpPayload(Text(name, text)) == if |text| > 32767 then Refused else Dumped(Bytes2(|text|) + text)
    ensures DumpName(Named(text)) == if |text| > 32767 then Refused else Dumped(Bytes2(|text|) + text)
  {
    hide Encode, Bytes2;
    EncodeIs(|text|);
    NoZero(text);
    assert text[..|text|] == text;
  }

  lemma {:induction false} NoZero(text: seq<Byte>)
    requires forall i :: 0 <= i < |text| ==> text[i] != 0
    ensures StrLen(text) == |text|
  {
    if text != [] { NoZero(text[1..]); }
  }

  /** A list writes the one type of its items and their count, then the items without their types. */
  lemma ListWritten(name: Name, elem: Byte, items: seq<Node>)
    requires items != [] ==> forall i :: 0 <= i < |items| ==> TypeOf(items[i]) == elem
    ensures DumpPayload(List(name, elem, items)) ==
      if |items| > 2147483647 || elem == 0 then Refused
      else Then(Dumped([elem] + Bytes4(|items|)), DumpItems(false, items))
  {
    hide Encode, Bytes4, DumpItems;
    EncodeIs(|items|);
  }

  function Flat(parts: seq<seq<Byte>>): seq<Byte> {
    if parts == [] then [] else parts[0] + Flat(parts[1..])
  }

  /** What a node writes behind its type: its name if it has one, then its payload. */
  ghost predicate Writes(t: Node, bytes: seq<Byte>) {
    (if t.name.Null? then DumpPayload(t) else Then(DumpName(t.name), DumpPayload(t))) == Dumped(bytes)
  }

  /** Items are written one behind the other, with their types in a compound and without in a list. */
  lemma {:induction false} ItemsWritten(items: seq<Node>, parts: seq<seq<Byte>>, typed: seq<seq<Byte>>)
    requires |parts| == |typed| == |items| && forall i :: 0 <= i < |items| ==> Writes(items[i], parts[i])
    requires forall i :: 0 <= i < |items| ==> typed[i] == [TypeOf(items[i])] + parts[i]
    ensures DumpItems(false, items) == Dumped(Flat(parts)) && DumpItems(true, items) == Dumped(Flat(typed))
    decreases |items|
  {
    hide DumpString, DumpPayload;
    if items != [] {
      ItemsWritten(items[1..], parts[1..], typed[1..]);
      assert Writes(items[0], parts[0]);
      assert [] + parts[0] == parts[0];
    }
  }

  /** A compound writes its fields with their types, then a zero byte. */
  lemma CompoundWritten(name: Name, items: seq<Node>, parts: seq<seq<Byte>>, typed: seq<seq<Byte>>)
    requires |parts| == |typed| == |items| && forall i :: 0 <= i < |items| ==> Writes(items[i], parts[i])
    requires forall i :: 0 <= i < |items| ==> typed[i] == [TypeOf(items[i])] + parts[i]
    ensures DumpPayload(Compound(name, items)) == Dumped(Flat(typed) + [0])
  {
    hide DumpItems, Writes;
    ItemsWritten(items, parts, typed);
  }

  /** The types that are written. */
  lemma TypesWritten(t: Node)
    ensures t.Text? ==> TypeOf(t) == 8
    ensures t.List? ==> TypeOf(t) == 9
    ensures t.Compound? ==> TypeOf(t) == 10
    ensures t.Number? || t.Array? ==> TypeOf(t) == t.tag
  {
  }
}
