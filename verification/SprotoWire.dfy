/** What the bytes of a sproto message are (lualib/sproto/sproto.c, and the wire protocol in
    lualib/sproto/README.md): the values of records, the order of bytes, and the worked examples,
    byte by byte.
 */
module SprotoWire {
  import opened Basics
  import opened LittleEndian
  import opened SprotoCodec
  import opened SprotoRoundTrip
  import opened SprotoLengths
  import opened SprotoDecoder
  import opened SprotoEncoder

  // ------------------------------------------------------------------- records

  /** A small integer is in its record exactly from 0 to 0x7ffe, as the even number 2 * (n + 1). */
  lemma IntegerRecord(types: Schema, tag: nat, n: int, w: nat)
    ensures EncValue(types, Field(tag, TInteger, false), IntV(n)) == Inline(w) <==> 0 <= n < 0x7fff && w == 2 * (n + 1)
  {
  }

  /** An even record that is not zero stands for half of it less one, in the next field: that number for
      an integer, and whether it is not zero for a boolean.  A field that is not known is passed over. */
  lemma EvenRecord(types: Schema, fs: seq<Field>, w: nat, tag: nat, data: seq<Byte>)
    requires w > 0 && w % 2 == 0
    ensures var f := Find(fs, tag);
            DecFields(types, fs, [w], tag - 1, data) ==
            if f == None then Some(Fields([], data))
            else if f.value.many then None
            else if f.value.ty == TInteger then Some(Fields([Entry(tag, IntV(w / 2 - 1))], data))
            else if f.value.ty == TBoolean then Some(Fields([Entry(tag, BoolV(w > 2))], data))
            else None
  {
    assert [w][1..] == [];
    assert DecFields(types, fs, [], tag, data) == Some(Fields([], data));
    var e: seq<Entry> := [];
    assert e + e == e && [Entry(tag, IntV(w / 2 - 1))] + e == [Entry(tag, IntV(w / 2 - 1))];
    assert [Entry(tag, BoolV(w > 2))] + e == [Entry(tag, BoolV(w > 2))];
  }

  /** The record of a boolean is that of the integer 1 for true and 0 for false; read as a boolean, an
      integer that is not zero is true. */
  lemma BooleanRecord(types: Schema, tag: nat, b: bool, n: nat)
    requires n < 0x7fff
    ensures var bit, number := Field(tag, TBoolean, false), Field(tag, TInteger, false);
            && EncValue(types, bit, BoolV(b)) == Inline(if b then 4 else 2) == EncValue(types, number, IntV(if b then 1 else 0))
            && EncValue(types, number, IntV(n)) == Inline(2 * (n + 1)) && DecInline(number, n) == Value(IntV(n))
            && DecInline(bit, n) == Value(BoolV(n > 0))
  {
  }

  /** A gap of tags is one odd record, and an odd record moves the tag on by half of it, rounded up. */
  lemma SkipRecord(types: Schema, fs: seq<Field>, gap: int, w: nat, records: seq<nat>, tag: int, data: seq<Byte>)
    ensures Skip(gap) == if gap > 0 then [2 * gap - 1] else []
    ensures w % 2 == 1 ==> DecFields(types, fs, [w] + records, tag, data) == DecFields(types, fs, records, tag + (w + 1) / 2, data)
  {
    if w % 2 == 1 {
      assert ([w] + records)[1..] == records && w == 2 * (w / 2) + 1;
    }
  }

  // ---------------------------------------------------------------------- bytes

  /** An element of an integer array is its two's complement in four or eight bytes. */
  lemma {:induction false} IntAt(ns: seq<int>, width: nat, i: nat)
    requires i < |ns| && (width == 4 || width == 8)
    ensures width * i + width <= width * |ns|
    ensures Val(Ints(ns, width)[width * i..width * i + width]) == ns[i] % (if width == 4 then 0x1_0000_0000 else 0x1_0000_0000_0000_0000)
  {
    hide LE, Val;
    var u := ns[0] % (if width == 4 then W32 else W64);
    var first, rest := LE(u, width), Ints(ns[1..], width);
    if i > 0 {
      IntAt(ns[1..], width, i - 1);
      Later(first, rest, width, i);
    } else {
      assert (first + rest)[0..width] == first;
      if width == 4 { Fits4(u); } else { Fits8(u); }
    }
  }

  lemma Later(first: seq<Byte>, rest: seq<Byte>, width: nat, i: nat)
    requires |first| == width && i > 0 && width * i + width <= width + |rest|
    ensures width * i == width + width * (i - 1) && width * i + width <= |first + rest|
    ensures (first + rest)[width * i..width * i + width] == rest[width * (i - 1)..width * (i - 1) + width]
  {
  }

  lemma FourBytes(n: nat, a: Byte, b: Byte, c: Byte, d: Byte)
    requires n == a as nat + 0x100 * (b as nat) + 0x1_0000 * (c as nat) + 0x100_0000 * (d as nat)
    ensures LE(n, 4) == [a, b, c, d]
  {
    ValueOf(a, b, c, d);
    Fits4(n);
    SameVal(LE(n, 4), [a, b, c, d]);
  }

  lemma EightBytes(n: nat, low: seq<Byte>, high: seq<Byte>)
    requires |low| == |high| == 4 && n < W64 && n == Val(low) + 0x1_0000_0000 * Val(high)
    ensures LE(n, 8) == low + high
  {
    ValueOfTwice(low, high);
    Fits8(n);
    SameVal(LE(n, 8), low + high);
  }

  /** Numbers that do not fit a record, from the wire: 100000, -1 and -10000000000. */
  lemma NumberBlocks(types: Schema, tag: nat)
    ensures var f := Field(tag, TInteger, false);
            && EncValue(types, f, IntV(100000)) == Block([0xa0, 0x86, 0x01, 0x00])
            && EncValue(types, f, IntV(-1)) == Block([0xff, 0xff, 0xff, 0xff])
            && EncValue(types, f, IntV(-10000000000)) == Block([0x00, 0x1c, 0xf4, 0xab, 0xfd, 0xff, 0xff, 0xff])
  {
    hide LE, Val;
    FourBytes(100000, 0xa0, 0x86, 0x01, 0x00);
    FourBytes(W32 - 1, 0xff, 0xff, 0xff, 0xff);
    ValueOf(0x00, 0x1c, 0xf4, 0xab);
    ValueOf(0xfd, 0xff, 0xff, 0xff);
    EightBytes(W64 - 10000000000, [0x00, 0x1c, 0xf4, 0xab], [0xfd, 0xff, 0xff, 0xff]);
  }

  /** Arrays: integers with their width in front, one byte for a boolean, strings with their sizes. */
  lemma ArrayBlocks(types: Schema, tag: nat)
    ensures EncValue(types, Field(tag, TInteger, true), IntsV([1, -2])) == Block([4, 1, 0, 0, 0, 0xfe, 0xff, 0xff, 0xff])
    ensures EncValue(types, Field(tag, TInteger, true), IntsV([0x100_0000_0000])) == Block([8, 0, 0, 0, 0, 0, 1, 0, 0])
    ensures EncValue(types, Field(tag, TBoolean, true), BoolsV([false, true])) == Block([0, 1])
    ensures EncValue(types, Field(tag, TString, true), StrsV([[0x61], [0x62, 0x63]])) == Block([1, 0, 0, 0, 0x61, 2, 0, 0, 0, 0x62, 0x63])
  {
    hide Ints, Strs;
    IntsOf();
    StrsOf();
    assert [4] + Ints([1, -2], 4) == [4, 1, 0, 0, 0, 0xfe, 0xff, 0xff, 0xff];
    assert [8] + Ints([0x100_0000_0000], 8) == [8, 0, 0, 0, 0, 0, 1, 0, 0];
    assert !AllShort([0x100_0000_0000]) by { assert !Short([0x100_0000_0000][0]); }
  }

  lemma IntsOf()
    ensures Ints([1, -2], 4) == [1, 0, 0, 0, 0xfe, 0xff, 0xff, 0xff]
    ensures Ints([0x100_0000_0000], 8) == [0, 0, 0, 0, 0, 1, 0, 0]
  {
    hide LE, Val;
    FourBytes(1, 1, 0, 0, 0);
    FourBytes(W32 - 2, 0xfe, 0xff, 0xff, 0xff);
    ValueOf(0, 0, 0, 0);
    ValueOf(0, 1, 0, 0);
    EightBytes(0x100_0000_0000, [0, 0, 0, 0], [0, 1, 0, 0]);
    var ns: seq<int>, big: seq<int> := [1, -2], [0x100_0000_0000];
    assert ns[1..] == [-2] && [-2][1..] == [] && big[1..] == [];
    assert Ints([-2], 4) == [0xfe, 0xff, 0xff, 0xff];
  }

  lemma StrsOf()
    ensures Strs([[0x61], [0x62, 0x63]]) == [1, 0, 0, 0, 0x61, 2, 0, 0, 0, 0x62, 0x63]
  {
    hide LE, Sized;
    var a: seq<Byte>, b: seq<Byte> := [0x61], [0x62, 0x63];
    SizedIs(a);
    SizedIs(b);
    assert [a, b][1..] == [b] && [b][1..] == [] && Strs([b]) == Sized(b);
  }

  // ------------------------------------------------------------------- examples

  /** person { name 0 : string, age 1 : integer, marital 2 : boolean, children 3 : *person } */
  const PERSON: seq<Field> :=
    [Field(0, TString, false), Field(1, TInteger, false), Field(2, TBoolean, false), Field(3, TStruct(0), true)]

  const TYPES: Schema := [PERSON]

  const ALICE_NAME: seq<Byte> := [0x41, 0x6c, 0x69, 0x63, 0x65]

  const BOB_NAME: seq<Byte> := [0x42, 0x6f, 0x62]

  /** person { name = "Alice", age = 13, marital = false } */
  const ALICE: Msg := Msg([Entry(0, StrV(ALICE_NAME)), Entry(1, IntV(13)), Entry(2, BoolV(false))])

  /** person { name = "Bob", age = 40, children = { alice } } */
  const BOB: Msg := Msg([Entry(0, StrV(BOB_NAME)), Entry(1, IntV(40)), Entry(3, MsgsV([ALICE]))])

  const ALICE_BYTES: seq<Byte> :=
    [0x03, 0x00, 0x00, 0x00, 0x1c, 0x00, 0x02, 0x00, 0x05, 0x00, 0x00, 0x00, 0x41, 0x6c, 0x69, 0x63, 0x65]

  const BOB_BYTES: seq<Byte> :=
    [0x04, 0x00, 0x00, 0x00, 0x52, 0x00, 0x01, 0x00, 0x00, 0x00, 0x03, 0x00, 0x00, 0x00, 0x42, 0x6f, 0x62,
     0x15, 0x00, 0x00, 0x00, 0x11, 0x00, 0x00, 0x00] + ALICE_BYTES

  /** One more field in front of the others. */
  lemma AddField(types: Schema, fs: seq<Field>, i: nat, last: int, m: Msg, v: Value, body: Body, all: Body)
    requires i < |fs| && Get(m, fs[i].tag) == Some(v) && EncFields(types, fs, i + 1, fs[i].tag, m) == Some(body)
    requires last + 1 <= fs[i].tag <= last + 0x7fff
    requires var part, skip := EncValue(types, fs[i], v), Skip(fs[i].tag - last - 1);
             || (part.Inline? && all.records == skip + [part.n] + body.records && all.data == body.data)
             || (part.Block? && all.records == skip + [0] + body.records && all.data == Sized(part.bytes) + body.data)
    ensures EncFields(types, fs, i, last, m) == Some(all)
  {
    hide EncValue;
    assert [] + body.data == body.data;
  }

  lemma NoField(types: Schema, fs: seq<Field>, i: nat, last: int, m: Msg)
    requires i <= |fs|
    ensures i == |fs| ==> EncFields(types, fs, i, last, m) == Some(Body([], []))
    ensures i < |fs| && Get(m, fs[i].tag) == None ==> EncFields(types, fs, i, last, m) == EncFields(types, fs, i + 1, last, m)
  {
  }

  lemma AliceHas()
    ensures Get(ALICE, 0) == Some(StrV(ALICE_NAME)) && Get(ALICE, 1) == Some(IntV(13)) && Get(ALICE, 2) == Some(BoolV(false))
    ensures Get(ALICE, 3) == None
  {
    assert Lookup(ALICE, 3, 3) == None && Lookup(ALICE, 3, 2) == None && Lookup(ALICE, 3, 1) == None;
    assert Lookup(ALICE, 1, 1) == Some(IntV(13)) && Lookup(ALICE, 2, 1) == Some(BoolV(false)) && Lookup(ALICE, 2, 2) == Some(BoolV(false));
  }

  lemma SizedIs(s: seq<Byte>)
    requires |s| < 256
    ensures Sized(s) == [|s|, 0, 0, 0] + s
  {
    var n := |s|;
    assert LE(n / 256 / 256 / 256, 1) == [0] + LE(0, 0) && LE(n / 256 / 256, 2) == [0] + LE(0, 1) && LE(n / 256, 3) == [0] + LE(0, 2);
    assert LE(n, 4) == [n, 0, 0, 0];
  }

  lemma WordsOf(a: nat, b: nat, c: nat, d: nat)
    requires a < 256 && b < 256 && c < 256 && d < 256
    ensures LE(a, 2) == [a, 0] && Words([]) == []
    ensures Words([a, b, c]) == [a, 0, b, 0, c, 0]
    ensures Words([a, b, c, d]) == [a, 0, b, 0, c, 0, d, 0]
  {
    forall n: nat | n < 256 ensures LE(n, 2) == [n, 0] { assert LE(n / 256, 1) == [0] + LE(0, 0); }
    assert [d][1..] == [] && [c, d][1..] == [d] && [b, c, d][1..] == [c, d] && [a, b, c, d][1..] == [b, c, d];
    assert [c][1..] == [] && [b, c][1..] == [c] && [a, b, c][1..] == [b, c];
    assert Words([d]) == [d, 0] && Words([c, d]) == [c, 0, d, 0] && Words([b, c, d]) == [b, 0, c, 0, d, 0];
    assert Words([c]) == [c, 0] && Words([b, c]) == [b, 0, c, 0];
  }

  /** Example 1 of the wire protocol. */
  lemma EncodeAlice()
    ensures EncMsg(TYPES, 0, ALICE) == Some(ALICE_BYTES)
  {
    hide EncFields, Get, Sized, Words, LE;
    AliceHas();
    NoField(TYPES, PERSON, 4, 2, ALICE);
    NoField(TYPES, PERSON, 3, 2, ALICE);
    AddField(TYPES, PERSON, 2, 1, ALICE, BoolV(false), Body([], []), Body([2], []));
    AddField(TYPES, PERSON, 1, 0, ALICE, IntV(13), Body([2], []), Body([28, 2], []));
    AddField(TYPES, PERSON, 0, -1, ALICE, StrV(ALICE_NAME), Body([28, 2], []), Body([0, 28, 2], Sized(ALICE_NAME)));
    SizedIs(ALICE_NAME);
    WordsOf(0, 28, 2, 0);
    WordsOf(3, 0, 0, 0);
    assert TYPES[0] == PERSON;
    var s: seq<Byte> := [3, 0] + ([0, 0, 28, 0, 2, 0] + ([5, 0, 0, 0] + ALICE_NAME));
    assert EncMsg(TYPES, 0, ALICE) == Some(s);
    assert s == ALICE_BYTES;
  }

  lemma BobHas()
    ensures Get(BOB, 0) == Some(StrV(BOB_NAME)) && Get(BOB, 1) == Some(IntV(40)) && Get(BOB, 2) == None
    ensures Get(BOB, 3) == Some(MsgsV([ALICE]))
  {
    assert Lookup(BOB, 1, 1) == Some(IntV(40)) && Lookup(BOB, 3, 2) == Lookup(BOB, 3, 1) == Some(MsgsV([ALICE]));
    assert Lookup(BOB, 2, 3) == None && Lookup(BOB, 2, 2) == None && Lookup(BOB, 2, 1) == None;
  }

  lemma Children()
    ensures EncMsgs(TYPES, 0, MsgsV([ALICE]), 0) == Some(Sized(ALICE_BYTES))
  {
    hide EncMsg, Sized;
    EncodeAlice();
    assert EncMsgs(TYPES, 0, MsgsV([ALICE]), 1) == Some([]);
    assert Sized(ALICE_BYTES) + [] == Sized(ALICE_BYTES);
  }

  lemma BobFields()
    ensures EncFields(TYPES, PERSON, 0, -1, BOB) == Some(Body([0, 82, 1, 0], Sized(BOB_NAME) + Sized(Sized(ALICE_BYTES))))
  {
    hide EncFields, Get, Sized, EncMsgs;
    BobHas();
    Children();
    var children := Sized(Sized(ALICE_BYTES));
    NoField(TYPES, PERSON, 4, 3, BOB);
    AddField(TYPES, PERSON, 3, 1, BOB, MsgsV([ALICE]), Body([], []), Body([1, 0], children));
    NoField(TYPES, PERSON, 2, 1, BOB);
    AddField(TYPES, PERSON, 1, 0, BOB, IntV(40), Body([1, 0], children), Body([82, 1, 0], children));
    AddField(TYPES, PERSON, 0, -1, BOB, StrV(BOB_NAME), Body([82, 1, 0], children), Body([0, 82, 1, 0], Sized(BOB_NAME) + children));
  }

  /** Example 2, with the size of the array in front of that of its message, as the encoder writes it. */
  lemma EncodeBob()
    ensures EncMsg(TYPES, 0, BOB) == Some(BOB_BYTES)
  {
    hide EncFields, Get, Sized, Words, LE, EncMsgs, EncValue;
    BobFields();
    SizedIs(ALICE_BYTES);
    SizedIs(Sized(ALICE_BYTES));
    SizedIs(BOB_NAME);
    WordsOf(0, 82, 1, 0);
    WordsOf(4, 0, 0, 0);
    assert TYPES[0] == PERSON;
    var s: seq<Byte> := [4, 0] + ([0, 0, 82, 0, 1, 0, 0, 0] + (([3, 0, 0, 0] + BOB_NAME) + ([21, 0, 0, 0] + ([17, 0, 0, 0] + ALICE_BYTES))));
    assert EncMsg(TYPES, 0, BOB) == Some(s);
    assert s == BOB_BYTES;
  }

  lemma PersonFields()
    ensures Find(PERSON, 0) == Some(PERSON[0]) && Find(PERSON, 1) == Some(PERSON[1])
    ensures Find(PERSON, 2) == Some(PERSON[2]) && Find(PERSON, 3) == Some(PERSON[3])
  {
    assert Find(PERSON[1..][1..][1..], 3) == Some(PERSON[3]);
    assert Find(PERSON[1..][1..], 2) == Some(PERSON[2]) && Find(PERSON[1..][1..], 3) == Some(PERSON[3]);
    assert Find(PERSON[1..], 2) == Some(PERSON[2]) && Find(PERSON[1..], 3) == Some(PERSON[3]);
  }

  lemma PersonValid()
    ensures Valid(TYPES) && Canonical(TYPES, 0, ALICE) && Canonical(TYPES, 0, BOB)
  {
    hide Find;
    PersonFields();
    CanonicalAlice();
    assert Canonical(TYPES, 0, BOB);
  }

  lemma CanonicalAlice()
    ensures Canonical(TYPES, 0, ALICE)
  {
    hide Find;
    PersonFields();
  }

  /** Both examples are read back, whatever follows, by the format and by the source. */
  lemma DecodeExamples(rest: seq<Byte>, astray: Got)
    requires |rest| < H31 - 42
    ensures DecMsg(TYPES, 0, ALICE_BYTES + rest) == SrcMsg(TYPES, 0, ALICE_BYTES + rest, astray) == Some(Decoded(ALICE, 17))
    ensures DecMsg(TYPES, 0, BOB_BYTES + rest) == SrcMsg(TYPES, 0, BOB_BYTES + rest, astray) == Some(Decoded(BOB, 42))
  {
    hide EncMsg, DecMsg, SrcMsg, Valid, Canonical;
    PersonValid();
    EncodeAlice();
    EncodeBob();
    RoundTrip(TYPES, 0, ALICE, rest);
    RoundTrip(TYPES, 0, BOB, rest);
    FormatAccepted(TYPES, 0, ALICE_BYTES + rest, astray);
    FormatAccepted(TYPES, 0, BOB_BYTES + rest, astray);
  }

  /** Ten bytes for the count and all records, and the name with its size. */
  lemma AliceNeeds()
    ensures NeedMsg(TYPES, 0, ALICE) == 19
  {
    hide Get, EncValue, Sized;
    AliceHas();
    SizedIs(ALICE_NAME);
    assert PERSON[0].tag == 0 && PERSON[1].tag == 1 && PERSON[2].tag == 2 && PERSON[3].tag == 3;
    assert EncValue(TYPES, PERSON[2], BoolV(false)) == Inline(2) by { BooleanRecord(TYPES, 2, false, 0); }
    assert EncValue(TYPES, PERSON[1], IntV(13)) == Inline(28) by { IntegerRecord(TYPES, 1, 13, 28); }
    assert EncValue(TYPES, PERSON[0], StrV(ALICE_NAME)) == Block(ALICE_NAME) by { NameBlock(); }
    assert NeedFields(TYPES, PERSON, 4, ALICE) == 0;
    assert NeedFields(TYPES, PERSON, 3, ALICE) == 0;
    assert NeedFields(TYPES, PERSON, 2, ALICE) == 0;
    assert NeedFields(TYPES, PERSON, 1, ALICE) == 0;
    assert NeedFields(TYPES, PERSON, 0, ALICE) == 9;
    assert Slots(PERSON, 4) == 0 && Slots(PERSON, 3) == 1 && Slots(PERSON, 2) == 2 && Slots(PERSON, 1) == 3;
    assert TYPES[0] == PERSON;
  }

  lemma NameBlock()
    ensures EncValue(TYPES, PERSON[0], StrV(ALICE_NAME)) == Block(ALICE_NAME)
  {
  }

  /** The same with the loops of the encoder and the decoder. */
  method RunExample(buffer: array<Byte>, astray: Got) returns (r: int, d: Option<Decoded>)
    modifies buffer
    ensures r < 0 ==> buffer.Length < 19
    ensures r >= 0 ==> r == 17 <= buffer.Length && buffer[..17] == ALICE_BYTES
    ensures d == Some(Decoded(ALICE, 17))
  {
    hide EncMsg, SrcMsg, Valid, Canonical, NeedMsg, TameMsg, Imported;
    PersonAscends();
    PersonValid();
    EncodeAlice();
    DecodeExamples([], astray);
    var person := ImportType(PERSON);
    var types := [person.value];
    assert SchemaOf(types) == TYPES && ALICE_BYTES + [] == ALICE_BYTES;
    AliceTame();
    AliceNeeds();
    r := SprotoEncode(types, 0, ALICE, buffer, 0, buffer.Length, buffer.Length);
    d := SprotoDecode(types, 0, ALICE_BYTES, astray);
  }

  lemma PersonAscends()
    ensures Ascending(PERSON)
  {
  }

  lemma AliceTame()
    ensures TameMsg(ALICE)
  {
  }
}
