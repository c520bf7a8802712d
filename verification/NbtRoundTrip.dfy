/** Parsing undoes dumping, for exactly the well-formed trees. */
module NbtRoundTrip {
  import opened NbtFormat

  // Numbers.

  /** The first value of w bytes that is too large. */
  function Bound(w: nat): nat { if w <= 1 then 128 else 256 * Bound(w - 1) }

  lemma {:induction false} FitsBound(w: nat, v: int)
    requires w >= 1
    ensures Fits(w, v) <==> 0 <= v + Bound(w) < 2 * Bound(w)
  {
    if w > 1 { FitsBound(w - 1, v / 256); }
  }

  lemma FitsRange(v: int)
    ensures Fits(2, v) <==> -0x8000 <= v < 0x8000
    ensures Fits(4, v) <==> -0x8000_0000 <= v < 0x8000_0000
    ensures Fits(8, v) <==> -0x8000_0000_0000_0000 <= v < 0x8000_0000_0000_0000
  {
    hide Fits;
    FitsBound(2, v);
    FitsBound(4, v);
    FitsBound(8, v);
    assert Bound(4) == 256 * Bound(3) && Bound(3) == 256 * Bound(2);
    assert Bound(8) == 256 * Bound(7) && Bound(7) == 256 * Bound(6) && Bound(6) == 256 * Bound(5) &&
      Bound(5) == 256 * Bound(4);
  }

  lemma {:induction false} DecodeEncode(w: nat, v: int)
    requires Fits(w, v)
    ensures Decode(Encode(w, v)) == v
  {
    if w >= 2 {
      DecodeEncode(w - 1, v / 256);
      var s := Encode(w, v);
      assert s[..|s| - 1] == Encode(w - 1, v / 256);
    } else if w == 1 {
      assert Encode(1, v) == [v % 256];
    }
  }

  /** Conversely every w bytes are the encoding of a number that fits. */
  lemma {:induction false} EncodeDecode(s: seq<Byte>)
    ensures Fits(|s|, Decode(s)) && Encode(|s|, Decode(s)) == s
  {
    if |s| >= 2 {
      var init, last := s[..|s| - 1], s[|s| - 1];
      EncodeDecode(init);
      assert Decode(s) == Decode(init) * 256 + last;
      assert Decode(s) / 256 == Decode(init) && Decode(s) % 256 == last;
      assert s == init + [last];
    } else if |s| == 1 {
      assert Encode(1, Decode(s)) == Encode(0, Decode(s) / 256) + [Decode(s) % 256];
    }
  }

  /** The element is one of an array of this type. */
  predicate ElementOk(tag: Byte, v: int) {
    if tag == TAG_BYTE_ARRAY then 0 <= v < 256 else Fits(Stride(tag), v)
  }

  lemma ElementEncode(tag: Byte, v: int)
    requires Stride(tag) != 0 && ElementOk(tag, v)
    ensures Element(tag, Encode(Stride(tag), v)) == v
  {
    if tag == TAG_BYTE_ARRAY { assert Encode(1, v) == [v % 256]; } else { DecodeEncode(Stride(tag), v); }
  }

  lemma RoomMore(tag: Byte, n: nat)
    ensures Room(tag, 0) == 0 && Room(tag, n + 1) == Stride(tag) + Room(tag, n)
  {
  }

  lemma {:induction false} EncodeAllLength(tag: Byte, data: seq<int>)
    ensures |EncodeAll(Stride(tag), data)| == Room(tag, |data|)
  {
    hide Room;
    RoomMore(tag, 0);
    if data != [] {
      EncodeAllLength(tag, data[1..]);
      RoomMore(tag, |data| - 1);
    }
  }

  lemma {:induction false} DecodeEncodeAll(tag: Byte, data: seq<int>, suffix: seq<Byte>)
    requires Stride(tag) != 0 && forall i :: 0 <= i < |data| ==> ElementOk(tag, data[i])
    ensures var s := EncodeAll(Stride(tag), data) + suffix;
      |s| >= Room(tag, |data|) && DecodeAll(tag, |data|, s) == data && s[Room(tag, |data|)..] == suffix
  {
    hide Encode, ElementOk, Element, Room;
    var w := Stride(tag);
    EncodeAllLength(tag, data);
    RoomMore(tag, 0);
    if data != [] {
      var s := EncodeAll(w, data) + suffix;
      DecodeEncodeAll(tag, data[1..], suffix);
      RoomMore(tag, |data| - 1);
      ElementEncode(tag, data[0]);
      assert s == Encode(w, data[0]) + (EncodeAll(w, data[1..]) + suffix);
      assert s[..w] == Encode(w, data[0]) && s[w..] == EncodeAll(w, data[1..]) + suffix;
    }
  }

  // The trees that the parser returns, and those among them that it also gets back.

  predicate Sized(text: seq<Byte>) { |text| <= SHORT_MAX }

  /** What parsing can return: named fields, unnamed list items all of the sentinel's type, and everything
      within its width. */
  predicate Shaped(t: Node)
    decreases t, 0
  {
    match t
    case Number(_, tag, value) => Width(tag) != 0 && Fits(Width(tag), value)
    case Array(_, tag, data) => Stride(tag) != 0 && |data| <= INT_MAX && forall i :: 0 <= i < |data| ==>
      ElementOk(tag, data[i])
    case Text(_, text) => Sized(text)
    case List(_, elem, items) => elem != TAG_INVALID && |items| <= INT_MAX && ItemsShaped(elem, items)
    case Compound(_, items) => FieldsShaped(items)
  }

  predicate ItemsShaped(elem: Byte, items: seq<Node>)
    decreases items, 1
  {
    items != [] ==> TypeOf(items[0]) == elem && items[0].name.Null? && Shaped(items[0]) && ItemsShaped(elem, items[1..])
  }

  predicate NamedShaped(t: Node)
    decreases t, 1
  {
    t.name.Named? && Sized(t.name.text) && Shaped(t)
  }

  predicate FieldsShaped(items: seq<Node>)
    decreases items, 2
  {
    items != [] ==> NamedShaped(items[0]) && FieldsShaped(items[1..])
  }

  /** A tree as it reads through C strings, which end at the first null byte. */
  function CString(text: seq<Byte>): (r: seq<Byte>) { text[..StrLen(text)] }

  function CName(name: Name): Name { if name.Null? then Null else Named(CString(name.text)) }

  function Clean(t: Node): Node
    decreases t, 0
  {
    match t
    case Number(name, tag, value) => Number(CName(name), tag, value)
    case Array(name, tag, data) => Array(CName(name), tag, data)
    case Text(name, text) => Text(CName(name), CString(text))
    case List(name, elem, items) => List(CName(name), elem, CleanAll(items))
    case Compound(name, items) => Compound(CName(name), CleanAll(items))
  }

  function CleanAll(items: seq<Node>): (r: seq<Node>)
    ensures |r| == |items|
    decreases items, 1
  {
    if items == [] then [] else [Clean(items[0])] + CleanAll(items[1..])
  }

  /** A named tree of the parser's shape whose strings hold no null byte. */
  predicate WellFormed(t: Node) { NamedShaped(t) && Clean(t) == t }

  // What is parsed is shaped.

  lemma StringShaped(s: seq<Byte>)
    ensures ParseString(s).Parsed? ==> Sized(ParseString(s).value)
  {
    if ParseString(s).Parsed? {
      EncodeDecode(s[..2]);
      FitsRange(Decode(s[..2]));
    }
  }

  lemma {:induction false} DecodeAllOk(tag: Byte, n: nat, s: seq<Byte>)
    requires Stride(tag) != 0 && |s| >= Room(tag, n)
    ensures forall i :: 0 <= i < n ==> ElementOk(tag, DecodeAll(tag, n, s)[i])
  {
    hide Decode, Fits, Room;
    if n > 0 {
      var w := Stride(tag);
      RoomMore(tag, n - 1);
      EncodeDecode(s[..w]);
      DecodeAllOk(tag, n - 1, s[w..]);
    }
  }

  lemma {:induction false} PayloadShaped(tag: Byte, name: Name, s: seq<Byte>)
    ensures var r := ParsePayload(tag, name, s); r.Parsed? ==>
      TypeOf(r.value) == tag && r.value.name == name && Shaped(r.value)
    decreases |s|, 2
  {
    hide Decode, Fits, DecodeAll, ElementOk, Room, ParseString, ParseItems, ParseFields, ItemsShaped, FieldsShaped;
    var r := ParsePayload(tag, name, s);
    if r.Parsed? {
      if Width(tag) != 0 {
        EncodeDecode(s[..Width(tag)]);
      } else if Stride(tag) != 0 {
        EncodeDecode(s[..4]);
        FitsRange(Decode(s[..4]));
        DecodeAllOk(tag, Decode(s[..4]), s[4..]);
      } else if tag == TAG_STRING {
        StringShaped(s);
      } else if tag == TAG_LIST {
        EncodeDecode(s[1..5]);
        FitsRange(Decode(s[1..5]));
        ListShaped(s[0], Decode(s[1..5]), s[5..]);
      } else {
        FieldsAreShaped(s);
      }
    }
  }

  lemma {:induction false} ListShaped(tag: Byte, n: int, s: seq<Byte>)
    ensures var r := ParseItems(tag, n, s); r.Parsed? ==>
      |r.value| == (if n <= 0 then 0 else n) && ItemsShaped(if tag == TAG_INVALID then TAG_COMPOUND else tag, r.value)
    decreases |s|, 3
  {
    hide Shaped;
    var r := ParseItems(tag, n, s);
    if r.Parsed? && n > 0 {
      var first := ParsePayload(tag, Null, s);
      PayloadShaped(tag, Null, s);
      ListShaped(tag, n - 1, first.rest);
      assert r.value[1..] == ParseItems(tag, n - 1, first.rest).value;
    }
  }

  lemma {:induction false} FieldsAreShaped(s: seq<Byte>)
    ensures ParseFields(s).Parsed? ==> FieldsShaped(ParseFields(s).value)
    decreases |s|, 1
  {
    hide Shaped;
    var r := ParseFields(s);
    if r.Parsed? && s[0] != 0 {
      var first := ParseNamed(s);
      NamedIsShaped(s);
      FieldsAreShaped(first.rest);
      assert r.value[1..] == ParseFields(first.rest).value;
    }
  }

  /** Whatever the bytes, a parsed tree is shaped. */
  lemma {:induction false} NamedIsShaped(s: seq<Byte>)
    ensures ParseNamed(s).Parsed? ==> NamedShaped(ParseNamed(s).value)
    decreases |s|, 0
  {
    hide Shaped;
    if ParseNamed(s).Parsed? {
      var name := ParseString(s[1..]);
      StringShaped(s[1..]);
      PayloadShaped(s[0], Named(name.value), name.rest);
    }
  }

  // A shaped tree is dumped, and parsing the bytes gives it back as C strings read it.

  lemma {:induction false} StringBack(text: seq<Byte>, suffix: seq<Byte>)
    requires Sized(text)
    ensures DumpString(text).Dumped? && ParseString(DumpString(text).bytes + suffix) == Parsed(CString(text), suffix)
  {
    var n := StrLen(text);
    FitsRange(n);
    DecodeEncode(2, n);
    var s := DumpString(text).bytes + suffix;
    assert s[..2] == Encode(2, n) && s[2..] == text[..n] + suffix;
    assert s[2..][..n] == text[..n] && s[2..][n..] == suffix;
  }

  lemma ArrayBack(tag: Byte, data: seq<int>, suffix: seq<Byte>)
    requires Stride(tag) != 0 && |data| <= INT_MAX && forall i :: 0 <= i < |data| ==> ElementOk(tag, data[i])
    ensures ParseArray(tag, Encode(4, |data|) + EncodeAll(Stride(tag), data) + suffix) == Parsed(data, suffix)
  {
    hide Encode, EncodeAll, DecodeAll, Decode, Fits, ElementOk, Room, Stride, ParseArray;
    FitsRange(|data|);
    DecodeEncode(4, |data|);
    DecodeEncodeAll(tag, data, suffix);
    var head, all := Encode(4, |data|), EncodeAll(Stride(tag), data);
    assert head + all + suffix == head + (all + suffix);
    ArrayParsed(tag, head, all + suffix);
  }

  lemma ArrayParsed(tag: Byte, head: seq<Byte>, body: seq<Byte>)
    requires Stride(tag) != 0 && |head| == 4 && Decode(head) >= 0 && |body| >= Room(tag, Decode(head))
    ensures ParseArray(tag, head + body) ==
      Parsed(DecodeAll(tag, Decode(head), body), body[Room(tag, Decode(head))..])
  {
    hide DecodeAll, Decode, Room, Stride;
    assert (head + body)[..4] == head && (head + body)[4..] == body;
  }

  lemma {:induction false} ItemTypes(elem: Byte, items: seq<Node>)
    requires ItemsShaped(elem, items)
    ensures forall i :: 0 <= i < |items| ==> TypeOf(items[i]) == elem
  {
    hide Shaped;
    if items != [] {
      ItemTypes(elem, items[1..]);
      forall i | 0 <= i < |items| ensures TypeOf(items[i]) == elem {
        if i > 0 { assert items[i] == items[1..][i - 1]; }
      }
    }
  }

  lemma {:induction false} PayloadBack(t: Node, suffix: seq<Byte>)
    requires Shaped(t)
    ensures DumpPayload(t).Dumped?
    ensures ParsePayload(TypeOf(t), CName(t.name), DumpPayload(t).bytes + suffix) == Parsed(Clean(t), suffix)
    decreases t, 0
  {
    hide Encode, EncodeAll, Decode, DecodeAll, Fits, ElementOk, ParseNumber, ParseString, ParseArray, ParseItems,
         ParseFields;
    hide DumpString, DumpItems, CName, CString, CleanAll;
    match t
    case Number(_, tag, value) =>
      NumberBack(tag, value, suffix);
    case Array(_, tag, data) =>
      ArrayBack(tag, data, suffix);
    case Text(_, text) =>
      StringBack(text, suffix);
    case List(name, elem, items) =>
      ItemTypes(elem, items);
      ItemsBack(elem, items, suffix);
      ListBack(CName(name), elem, |items|, DumpItems(false, items).bytes + suffix);
      assert DumpPayload(t).bytes + suffix == [elem] + Encode(4, |items|) + (DumpItems(false, items).bytes + suffix);
    case Compound(_, items) =>
      FieldsBack(items, suffix);
      assert DumpPayload(t).bytes + suffix == DumpItems(true, items).bytes + ([0] + suffix);
  }

  lemma NumberBack(tag: Byte, value: int, suffix: seq<Byte>)
    requires Fits(Width(tag), value)
    ensures ParseNumber(Width(tag), Encode(Width(tag), value) + suffix) == Parsed(value, suffix)
  {
    hide Encode, Decode;
    DecodeEncode(Width(tag), value);
    var s := Encode(Width(tag), value) + suffix;
    assert s[..Width(tag)] == Encode(Width(tag), value) && s[Width(tag)..] == suffix;
  }

  /** A list's header, before its items. */
  lemma ListBack(name: Name, elem: Byte, n: nat, body: seq<Byte>)
    requires elem != TAG_INVALID && n <= INT_MAX && ParseItems(elem, n, body).Parsed?
    ensures var items := ParseItems(elem, n, body);
      ParsePayload(TAG_LIST, name, [elem] + Encode(4, n) + body) == Parsed(List(name, elem, items.value), items.rest)
  {
    hide Encode, Decode, ParseItems;
    FitsRange(n);
    DecodeEncode(4, n);
    var s := [elem] + Encode(4, n) + body;
    assert s[1..5] == Encode(4, n) && s[5..] == body;
  }

  lemma DumpUnnamed(t: Node)
    requires t.name.Null?
    ensures DumpNode(false, t) == DumpPayload(t)
  {
    hide DumpPayload;
    if DumpPayload(t).Dumped? { assert [] + ([] + DumpPayload(t).bytes) == DumpPayload(t).bytes; }
  }

  lemma {:induction false} ItemsBack(elem: Byte, items: seq<Node>, suffix: seq<Byte>)
    requires ItemsShaped(elem, items)
    ensures DumpItems(false, items).Dumped?
    ensures ParseItems(elem, |items|, DumpItems(false, items).bytes + suffix) == Parsed(CleanAll(items), suffix)
    decreases items, 1
  {
    hide Shaped, DumpPayload, DumpNode, Clean, ParsePayload;
    if items == [] {
      assert [] + suffix == suffix;
    } else {
      ItemsBack(elem, items[1..], suffix);
      var rest := DumpItems(false, items[1..]).bytes + suffix;
      PayloadBack(items[0], rest);
      DumpUnnamed(items[0]);
      assert DumpItems(false, items).bytes + suffix == DumpPayload(items[0]).bytes + rest;
    }
  }

  lemma {:induction false} FieldsBack(items: seq<Node>, suffix: seq<Byte>)
    requires FieldsShaped(items)
    ensures DumpItems(true, items).Dumped?
    ensures ParseFields(DumpItems(true, items).bytes + ([0] + suffix)) == Parsed(CleanAll(items), suffix)
    decreases items, 2
  {
    hide NamedShaped, DumpNode, Clean, ParseNamed;
    if items == [] {
      assert [] + ([0] + suffix) == [0] + suffix;
      assert ([0] + suffix)[1..] == suffix;
    } else {
      FieldsBack(items[1..], suffix);
      var rest := DumpItems(true, items[1..]).bytes + ([0] + suffix);
      NamedBack(items[0], rest);
      assert DumpItems(true, items).bytes + ([0] + suffix) == DumpNode(true, items[0]).bytes + rest;
    }
  }

  /** A shaped tree is dumped; parsing the bytes before any suffix leaves that suffix and gives the tree, each
      string cut at its first null byte. */
  lemma {:induction false} NamedBack(t: Node, suffix: seq<Byte>)
    requires NamedShaped(t)
    ensures DumpNode(true, t).Dumped? && DumpNode(true, t).bytes != [] && DumpNode(true, t).bytes[0] == TypeOf(t) != 0
    ensures ParseNamed(DumpNode(true, t).bytes + suffix) == Parsed(Clean(t), suffix)
    decreases t, 1
  {
    hide Shaped, DumpPayload, ParsePayload, Clean, DumpString, ParseString;
    PayloadBack(t, suffix);
    var payload := DumpPayload(t).bytes + suffix;
    StringBack(t.name.text, payload);
    var s := DumpNode(true, t).bytes + suffix;
    assert s[1..] == DumpString(t.name.text).bytes + payload;
    ShapedType(t);
  }

  lemma ShapedType(t: Node)
    requires Shaped(t)
    ensures TypeOf(t) != 0
  {
  }

  /** Parsing the dumped tree before the suffix gives the tree and leaves the suffix. */
  predicate ReadsBack(t: Node, suffix: seq<Byte>)
    requires DumpNode(true, t).Dumped?
  {
    ParseNamed(DumpNode(true, t).bytes + suffix) == Parsed(t, suffix)
  }

  /** The round trip holds for a tree, whatever follows it, if and only if the tree is well formed. */
  lemma RoundTripExactly(t: Node)
    ensures WellFormed(t) <==> DumpNode(true, t).Dumped? && forall suffix: seq<Byte> :: ReadsBack(t, suffix)
  {
    hide DumpNode, ParseNamed, NamedShaped, Clean;
    if WellFormed(t) {
      NamedBack(t, []);
      forall suffix: seq<Byte> ensures ReadsBack(t, suffix) { NamedBack(t, suffix); }
    } else if DumpNode(true, t).Dumped? && ReadsBack(t, []) {
      NamedIsShaped(DumpNode(true, t).bytes + []);
      NamedBack(t, []);
    }
  }

  /** Whatever was parsed can be dumped, and parses again to itself as C strings read it. */
  lemma ParseDumpParse(s: seq<Byte>, suffix: seq<Byte>)
    requires ParseNamed(s).Parsed?
    ensures var t := ParseNamed(s).value;
      DumpNode(true, t).Dumped? && ParseNamed(DumpNode(true, t).bytes + suffix) == Parsed(Clean(t), suffix)
  {
    NamedIsShaped(s);
    NamedBack(ParseNamed(s).value, suffix);
  }

  // When a tree is dumped.

  /** Known types, strings short enough, and lists of one valid type, all the way down. */
  predicate Dumpable(t: Node) {
    && (t.name.Named? ==> StrLen(t.name.text) <= SHORT_MAX)
    && match t
       case Number(_, tag, _) => Width(tag) != 0
       case Array(_, tag, _) => Stride(tag) != 0
       case Text(_, text) => StrLen(text) <= SHORT_MAX
       case List(_, elem, items) =>
         && |items| <= INT_MAX && ListType(elem, items) != TAG_INVALID
         && forall i :: 0 <= i < |items| ==> Dumpable(items[i])
       case Compound(_, items) => forall i :: 0 <= i < |items| ==> Dumpable(items[i])
  }

  /** A dump fails exactly for the other trees. */
  lemma {:induction false} DumpedExactly(dumpType: bool, t: Node)
    ensures DumpNode(dumpType, t).Dumped? <==> Dumpable(t)
    decreases t, 1
  {
    hide StrLen, ListType;
    match t
    case List(_, _, items) => ItemsDumped(false, items);
    case Compound(_, items) => ItemsDumped(true, items);
    case _ =>
  }

  lemma {:induction false} ItemsDumped(dumpType: bool, items: seq<Node>)
    ensures DumpItems(dumpType, items).Dumped? <==> forall i :: 0 <= i < |items| ==> Dumpable(items[i])
    decreases items, 2
  {
    hide Dumpable, DumpNode;
    if items != [] {
      DumpedExactly(dumpType, items[0]);
      ItemsDumped(dumpType, items[1..]);
      forall i | 1 <= i < |items| ensures items[i] == items[1..][i - 1] { }
    }
  }

  /** Such trees, which meet no assertion on the way: a node of no known type, and a string one byte too long. */
  lemma RefusedTrees(dumpType: bool, name: Name)
    ensures !Dumpable(Number(name, TAG_INVALID, 0)) && DumpNode(dumpType, Number(name, TAG_INVALID, 0)) == Refused
    ensures !Dumpable(Text(name, LongText())) && DumpNode(dumpType, Text(name, LongText())) == Refused
  {
    hide DumpNode, Ones, StrLen;
    DumpedExactly(dumpType, Number(name, TAG_INVALID, 0));
    DumpedExactly(dumpType, Text(name, LongText()));
    OnesLength(SHORT_MAX + 1);
  }

  function Ones(n: nat): (s: seq<Byte>) { seq(n, _ => 1) }

  function LongText(): (s: seq<Byte>) { Ones(SHORT_MAX + 1) }

  lemma {:induction false} OnesLength(n: nat)
    ensures StrLen(Ones(n)) == n
  {
    if n > 0 {
      assert Ones(n)[1..] == Ones(n - 1);
      OnesLength(n - 1);
    }
  }
}
