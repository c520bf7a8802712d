/** The parser and the dumper of cNBT/nbt_parsing.c on a little-endian machine, against the format. */
module NbtCode {
  import opened NbtFormat
  import opened NbtRoundTrip

  datatype Got<T> = Nothing | Got(value: T)

  // Byte order.

  function Reversed(s: seq<Byte>): (r: seq<Byte>)
    ensures |r| == |s|
  {
    seq(|s|, i requires 0 <= i < |s| => s[|s| - 1 - i])
  }

  /** The signed number that a little-endian machine keeps in these bytes, and the bytes it keeps for a number. */
  function Native(s: seq<Byte>): int {
    if s == [] then 0
    else if |s| == 1 then if s[0] >= 128 then s[0] - 256 else s[0]
    else s[0] + 256 * Native(s[1..])
  }

  function NativeBytes(w: nat, v: int): (s: seq<Byte>)
    ensures |s| == w
  {
    if w == 0 then [] else [v % 256] + NativeBytes(w - 1, v / 256)
  }

  lemma {:induction false} SwappedValue(s: seq<Byte>)
    ensures Native(Reversed(s)) == Decode(s)
  {
    if |s| >= 2 {
      SwappedValue(s[..|s| - 1]);
      assert Reversed(s)[1..] == Reversed(s[..|s| - 1]);
    }
  }

  lemma {:induction false} SwappedBytes(w: nat, v: int)
    ensures Reversed(NativeBytes(w, v)) == Encode(w, v)
  {
    if w > 0 {
      SwappedBytes(w - 1, v / 256);
      var rest := NativeBytes(w - 1, v / 256);
      assert Reversed([v % 256] + rest) == Reversed(rest) + [v % 256];
    }
  }

  /** swap_bytes() */
  method SwapBytes(a: array<Byte>)
    modifies a
    ensures a[..] == Reversed(old(a[..]))
  {
    var b, e := 0, a.Length - 1;
    while b < e
      invariant 0 <= b && b + e == a.Length - 1 && b <= e + 1
      invariant forall k :: 0 <= k < b || e < k < a.Length ==> a[k] == old(a[a.Length - 1 - k])
      invariant forall k :: b <= k <= e ==> a[k] == old(a[k])
    {
      a[b], a[e] := a[e], a[b];
      b, e := b + 1, e - 1;
    }
  }

  /** be2ne() on n bytes of memory. */
  method FromBigEndian(s: seq<Byte>) returns (v: int)
    ensures v == Decode(s)
  {
    var a := new Byte[|s|](i requires 0 <= i < |s| => s[i]);
    assert a[..] == s;
    SwapBytes(a);
    SwappedValue(s);
    v := Native(a[..]);
  }

  /** ne2be() on a number of w bytes. */
  method ToBigEndian(w: nat, v: int) returns (s: seq<Byte>)
    ensures s == Encode(w, v)
  {
    var n := NativeBytes(w, v);
    var a := new Byte[w](i requires 0 <= i < w => n[i]);
    assert a[..] == n;
    SwapBytes(a);
    SwappedBytes(w, v);
    s := a[..];
  }

  // Parsing.

  /** The cursor over the input, and whether errno is still NBT_OK. */
  class Reader {
    const memory: seq<Byte>
    var pos: nat
    var ok: bool

    constructor (memory: seq<Byte>)
      ensures this.memory == memory && pos == 0 && ok
    {
      this.memory, pos, ok := memory, 0, true;
    }

    ghost function Left(): seq<Byte>
      reads this
      requires pos <= |memory|
    {
      memory[pos..]
    }

    /** With no error before, the result and the cursor are what the format says, and an error is set exactly
        on failure. An error stays. */
    ghost predicate Agrees<T>(before: bool, p: Parsed<T>, r: Got<T>)
      reads this
    {
      && pos <= |memory|
      && (before ==> (r.Got? <==> p.Parsed?) && (r.Got? <==> ok) && (r.Got? ==> r.value == p.value && Left() == p.rest))
      && (!before ==> !ok)
    }

    /** READ_GENERIC with memscan. */
    method ReadBytes(n: nat) returns (r: Got<seq<Byte>>)
      requires pos <= |memory|
      modifies `pos
      ensures old(pos) <= pos <= |memory| && (r.Got? <==> n <= |old(Left())|)
      ensures r.Nothing? ==> pos == old(pos)
      ensures r.Got? ==> r.value == old(Left())[..n] && Left() == old(Left())[n..] && pos == old(pos) + n
    {
      if |memory| - pos < n { return Nothing; }
      r := Got(memory[pos..pos + n]);
      pos := pos + n;
    }

    /** READ_GENERIC with swapped_memscan. */
    method ReadNumber(n: nat) returns (r: Got<int>)
      requires pos <= |memory|
      modifies `pos
      ensures old(pos) <= pos <= |memory| && (r.Got? <==> n <= |old(Left())|)
      ensures r.Nothing? ==> pos == old(pos)
      ensures r.Got? ==> r.value == Decode(old(Left())[..n]) && Left() == old(Left())[n..] && pos == old(pos) + n
    {
      var b := ReadBytes(n);
      if b.Nothing? { return Nothing; }
      var v := FromBigEndian(b.value);
      r := Got(v);
    }

    /** read_string() */
    method ReadString() returns (r: Got<seq<Byte>>)
      requires pos <= |memory|
      modifies `pos, `ok
      ensures old(pos) <= pos && Agrees(old(ok), ParseString(old(Left())), r)
    {
      hide Decode;
      r := Nothing;
      var n := ReadNumber(2);
      if n.Nothing? || n.value < 0 {
        ok := false;
        return;
      }
      r := ReadBytes(n.value);
      if r.Nothing? { ok := false; }
    }

    /** read_byte_array(), read_int_array() and read_long_array() */
    method ReadArray(tag: Byte) returns (r: Got<seq<int>>)
      requires pos <= |memory| && Stride(tag) != 0
      modifies `pos, `ok
      ensures old(pos) <= pos && Agrees(old(ok), ParseArray(tag, old(Left())), r)
    {
      hide Decode, DecodeAll, Stride, Room;
      r := Nothing;
      var n := ReadNumber(4);
      if n.Nothing? || n.value < 0 {
        ok := false;
        return;
      }
      ghost var left := Left();
      var b := ReadBytes(Room(tag, n.value));
      if b.Nothing? {
        ok := false;
        return;
      }
      SliceDecode(tag, n.value, left);
      var data := Elements(tag, n.value, b.value);
      r := Got(data);
    }

    /** read_list() */
    method ReadList() returns (r: Got<(Byte, seq<Node>)>)
      requires pos <= |memory|
      modifies `pos, `ok
      ensures old(pos) <= pos && Agrees(old(ok), ParseList(old(Left())), r)
      decreases |memory| - pos, 1
    {
      hide Decode, ParsePayload;
      r := Nothing;
      ghost var s := Left();
      var t := ReadBytes(1);
      if t.Nothing? {
        ok := false;
        return;
      }
      var tag := t.value[0];
      var n := ReadNumber(4);
      if n.Nothing? {
        ok := false;
        return;
      }
      assert s[1..][..4] == s[1..5] && Left() == s[5..];
      ghost var body := Left();
      var elem := if tag == TAG_INVALID then TAG_COMPOUND else tag;
      var items: seq<Node>, i := [], 0;
      PrependNone(ParseItems(tag, n.value, body));
      while i < n.value
        invariant 0 <= i && (i <= n.value || i == 0) && old(pos) + 5 <= pos <= |memory|
        invariant ok == old(ok)
        invariant ok ==> ParseItems(tag, n.value, body) == Prepend(items, ParseItems(tag, n.value - i, Left()))
        decreases n.value - i
      {
        var item := ReadPayload(tag, Null);
        if item.Nothing? { return; }
        PrependMore(items, item.value, ParseItems(tag, n.value - i - 1, Left()));
        items := items + [item.value];
        i := i + 1;
      }
      assert items + [] == items;
      r := Got((elem, items));
    }

    /** read_compound() */
    method ReadCompound() returns (r: Got<seq<Node>>)
      requires pos <= |memory|
      modifies `pos, `ok
      ensures old(pos) <= pos && Agrees(old(ok), ParseFields(old(Left())), r)
      decreases |memory| - pos, 1
    {
      hide Decode, ParsePayload, ParseString;
      r := Nothing;
      ghost var s := Left();
      var items: seq<Node> := [];
      PrependNone(ParseFields(s));
      while true
        invariant old(pos) <= pos <= |memory|
        invariant ok == old(ok)
        invariant ok ==> ParseFields(s) == Prepend(items, ParseFields(Left()))
        decreases |memory| - pos
      {
        ghost var from := Left();
        var t := ReadBytes(1);
        if t.Nothing? {
          ok := false;
          return;
        }
        var tag := t.value[0];
        assert tag == from[0];
        if tag == 0 { break; }
        var name := ReadString();
        if name.Nothing? {
          ok := false;
          return;
        }
        var item := ReadPayload(tag, Named(name.value));
        if item.Nothing? { return; }
        PrependMore(items, item.value, ParseFields(Left()));
        items := items + [item.value];
      }
      assert items + [] == items;
      r := Got(items);
    }

    /** parse_unnamed_tag() */
    method ReadPayload(tag: Byte, name: Name) returns (r: Got<Node>)
      requires pos <= |memory|
      modifies `pos, `ok
      ensures old(pos) <= pos && Agrees(old(ok), ParsePayload(tag, name, old(Left())), r) && (r.Got? ==> ok)
      decreases |memory| - pos, 2
    {
      hide Decode, ParseString, ParseArray, ParseItems, ParseFields;
      r := Nothing;
      if Width(tag) != 0 {
        var v := ReadNumber(Width(tag));
        if v.Nothing? {
          ok := false;
          return;
        }
        if ok { r := Got(Number(name, tag, v.value)); }
      } else if Stride(tag) != 0 {
        var a := ReadArray(tag);
        if ok { r := Got(Array(name, tag, a.value)); }
      } else if tag == TAG_STRING {
        var a := ReadString();
        if ok { r := Got(Text(name, a.value)); }
      } else if tag == TAG_LIST {
        var a := ReadList();
        if ok { r := Got(List(name, a.value.0, a.value.1)); }
      } else if tag == TAG_COMPOUND {
        var a := ReadCompound();
        if ok { r := Got(Compound(name, a.value)); }
      } else {
        ok := false;
      }
    }

    /** parse_named_tag(): a name that cannot be read does not stop the parse, yet makes it fail. */
    method ReadNamed() returns (r: Got<Node>)
      requires pos <= |memory| && ok
      modifies `pos, `ok
      ensures Agrees(true, ParseNamed(old(Left())), r)
    {
      hide Decode, ParseString, ParsePayload;
      var t := ReadBytes(1);
      if t.Nothing? {
        ok := false;
        return Nothing;
      }
      var name := ReadString();
      r := ReadPayload(t.value[0], if name.Nothing? then Null else Named(name.value));
    }
  }

  /** A list's type and items. */
  ghost function ParseList(s: seq<Byte>): Parsed<(Byte, seq<Node>)> {
    if |s| < 5 then Failed else
    var items := ParseItems(s[0], Decode(s[1..5]), s[5..]);
    if items.Failed? then Failed else Parsed((if s[0] == TAG_INVALID then TAG_COMPOUND else s[0], items.value),
      items.rest)
  }

  lemma PrependNone(r: Parsed<seq<Node>>)
    ensures Prepend([], r) == r
  {
    if r.Parsed? { assert [] + r.value == r.value; }
  }

  lemma PrependMore(items: seq<Node>, item: Node, r: Parsed<seq<Node>>)
    ensures Prepend(items, Prepend([item], r)) == Prepend(items + [item], r)
  {
    if r.Parsed? { assert items + ([item] + r.value) == items + [item] + r.value; }
  }

  /** Only the elements' own bytes matter. */
  lemma {:induction false} SliceDecode(tag: Byte, n: nat, s: seq<Byte>)
    requires Room(tag, n) <= |s|
    ensures DecodeAll(tag, n, s[..Room(tag, n)]) == DecodeAll(tag, n, s)
  {
    hide Element;
    var w := Stride(tag);
    if n > 0 {
      assert Room(tag, n) == w + Room(tag, n - 1);
      var p := s[..Room(tag, n)];
      assert p[..w] == s[..w] && p[w..] == s[w..][..Room(tag, n - 1)];
      SliceDecode(tag, n - 1, s[w..]);
    }
  }

  /** The byte swapping loop over an array's elements. */
  method Elements(tag: Byte, n: nat, s: seq<Byte>) returns (data: seq<int>)
    requires |s| == Room(tag, n)
    ensures data == DecodeAll(tag, n, s)
  {
    hide Decode;
    var w, i, rest := Stride(tag), 0, s;
    data := [];
    while i < n
      invariant 0 <= i <= n && |rest| == Room(tag, n - i) && DecodeAll(tag, n, s) == data + DecodeAll(tag, n - i, rest)
    {
      assert Room(tag, n - i) == w + Room(tag, n - i - 1);
      var v;
      if tag == TAG_BYTE_ARRAY { v := rest[0]; } else { v := FromBigEndian(rest[..w]); }
      assert DecodeAll(tag, n - i, rest) == [v] + DecodeAll(tag, n - i - 1, rest[w..]);
      data, rest, i := data + [v], rest[w..], i + 1;
    }
  }

  /** nbt_parse(): the tree at the start of the memory, if there is one. */
  method NbtParse(memory: seq<Byte>) returns (r: Got<Node>)
    ensures ParseNamed(memory).Parsed? <==> r.Got?
    ensures r.Got? ==> r.value == ParseNamed(memory).value
  {
    hide ParseNamed;
    var reader := new Reader(memory);
    assert reader.Left() == memory;
    r := reader.ReadNamed();
  }

  // Dumping.

  /** strlen() */
  method CLength(s: seq<Byte>) returns (n: nat)
    ensures n == StrLen(s)
  {
    n := 0;
    while n < |s| && s[n] != 0
      invariant n <= |s| && StrLen(s) == n + StrLen(s[n..])
    {
      assert s[n..][1..] == s[n + 1..];
      n := n + 1;
    }
  }

  /** list_is_homogenous() */
  method ListIsHomogeneous(elem: Byte, items: seq<Node>) returns (tag: Byte)
    ensures tag == ListType(elem, items)
  {
    tag := TAG_INVALID;
    for i := 0 to |items|
      invariant i == 0 ==> tag == TAG_INVALID
      invariant i > 0 ==> tag == TypeOf(items[0]) != TAG_INVALID
      invariant forall j :: 0 <= j < i ==> TypeOf(items[j]) == tag
    {
      var cur := TypeOf(items[i]);
      if cur == TAG_INVALID { return TAG_INVALID; }
      if tag == TAG_INVALID { tag := cur; }
      if tag != cur { return TAG_INVALID; }
    }
    if tag == TAG_INVALID { tag := elem; }
  }

  /** The output buffer. */
  class Buffer {
    var data: seq<Byte>

    constructor ()
      ensures data == []
    {
      data := [];
    }

    /** Success writes exactly the bytes of the format; a refusal leaves what was written before it. */
    ghost predicate Wrote(before: seq<Byte>, d: Dump, done: bool)
      reads this
    {
      before <= data && (done <==> d.Dumped?) && (done ==> data == before + d.bytes)
    }

    method PutNumber(w: nat, v: int)
      modifies `data
      ensures data == old(data) + Encode(w, v)
    {
      var s := ToBigEndian(w, v);
      data := data + s;
    }

    /** dump_string_binary() */
    method PutString(s: seq<Byte>) returns (done: bool)
      modifies `data
      ensures Wrote(old(data), DumpString(s), done)
    {
      var n := CLength(s);
      if n > SHORT_MAX { return false; }
      PutNumber(2, n);
      data := data + s[..n];
      done := true;
    }

    /** The loop that writes an array's elements. */
    method PutElements(w: nat, elements: seq<int>)
      modifies `data
      ensures data == old(data) + EncodeAll(w, elements)
    {
      hide Encode;
      for i := 0 to |elements|
        invariant data + EncodeAll(w, elements[i..]) == old(data) + EncodeAll(w, elements)
      {
        assert elements[i..][1..] == elements[i + 1..];
        ghost var was := data;
        PutNumber(w, elements[i]);
        assert was + (Encode(w, elements[i]) + EncodeAll(w, elements[i + 1..])) ==
          data + EncodeAll(w, elements[i + 1..]);
      }
      assert data + [] == data;
    }

    /** The loops of dump_list_binary() and dump_compound_binary() over their entries. */
    method PutItems(dumpType: bool, items: seq<Node>) returns (done: bool)
      modifies `data
      ensures Wrote(old(data), DumpItems(dumpType, items), done)
      decreases items, 2
    {
      hide DumpNode;
      ghost var was := data;
      for i := 0 to |items|
        invariant was <= data
        invariant DumpItems(dumpType, items) == Then(Dumped(data[|was|..]), DumpItems(dumpType, items[i..]))
      {
        ghost var mid := data;
        ghost var rest := DumpItems(dumpType, items[i + 1..]);
        assert items[i..][1..] == items[i + 1..];
        done := PutNode(dumpType, items[i]);
        if !done { return; }
        assert data[|was|..] == mid[|was|..] + DumpNode(dumpType, items[i]).bytes;
        ThenMore(mid[|was|..], DumpNode(dumpType, items[i]).bytes, rest);
      }
      assert data[|was|..] + [] == data[|was|..];
      done := true;
    }

    /** The payload part of __dump_binary(), with dump_list_binary() and dump_compound_binary(). */
    method PutPayload(t: Node) returns (done: bool)
      modifies `data
      ensures Wrote(old(data), DumpPayload(t), done)
      decreases t, 0
    {
      hide Encode, EncodeAll, DumpItems, ListType;
      match t
      case Number(_, tag, value) =>
        if Width(tag) == 0 { return false; }
        PutNumber(Width(tag), value);
        done := true;
      case Array(_, tag, elements) =>
        if Stride(tag) == 0 { return false; }
        PutNumber(4, |elements|);
        PutElements(Stride(tag), elements);
        done := true;
      case Text(_, text) =>
        done := PutString(text);
      case List(_, elem, items) =>
        var tag := ListIsHomogeneous(elem, items);
        if |items| > INT_MAX { return false; }
        if tag == TAG_INVALID { return false; }
        data := data + [tag];
        PutNumber(4, |items|);
        done := PutItems(false, items);
      case Compound(_, items) =>
        done := PutItems(true, items);
        if !done { return; }
        data := data + [0];
    }

    /** __dump_binary() */
    method PutNode(dumpType: bool, t: Node) returns (done: bool)
      modifies `data
      ensures Wrote(old(data), DumpNode(dumpType, t), done)
      ensures dumpType ==> old(data) + [TypeOf(t)] <= data
      decreases t, 1
    {
      hide DumpString, DumpPayload;
      if dumpType { data := data + [TypeOf(t)]; }
      if t.name.Named? {
        done := PutString(t.name.text);
        if !done { return; }
      }
      done := PutPayload(t);
    }
  }

  lemma ThenMore(a: seq<Byte>, b: seq<Byte>, c: Dump)
    ensures Then(Dumped(a), Then(Dumped(b), c)) == Then(Dumped(a + b), c)
  {
    if c.Dumped? { assert a + (b + c.bytes) == a + b + c.bytes; }
  }

  /** nbt_dump_binary(): the bytes of the format for a tree that can be dumped; otherwise an error beside what was
      written before it, which is never nothing. */
  method NbtDumpBinary(t: Node) returns (data: seq<Byte>, done: bool)
    ensures done <==> Dumpable(t)
    ensures done ==> DumpNode(true, t) == Dumped(data)
    ensures data != [] && data[0] == TypeOf(t)
  {
    hide DumpNode, Dumpable, TypeOf;
    var b := new Buffer();
    DumpedExactly(true, t);
    done := b.PutNode(true, t);
    data := b.data;
  }

  /** Failed dumps, with no assertion met: a node of no known type and a string one byte too long each give an error
      and a buffer that is not null. */
  method FailedDump() returns (unknown: seq<Byte>, tooLong: seq<Byte>, done: bool)
    ensures !done && unknown != [] && tooLong != []
  {
    hide LongText;
    RefusedTrees(true, Named([]));
    var first, second;
    unknown, first := NbtDumpBinary(Number(Named([]), TAG_INVALID, 0));
    tooLong, second := NbtDumpBinary(Text(Named([]), LongText()));
    done := first || second;
  }
}
