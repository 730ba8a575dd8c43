/** What sproto_decode makes of the lengths of data blocks (lualib/sproto/sproto.c). A length is a
    32-bit word of the input, and the test for room adds 4 to it in 32 bits: a length of 2^32 - 4
    or more passes the test, and the cursor goes on by 0 to 3 bytes.

    `SrcMsg` is the decoder with that sum, `DecMsg` (SprotoCodec.dfy) the format. They agree on
    everything that the format accepts; what else the source accepts is characterised here.

    An array of numbers or booleans of such a length is read far behind the input; what comes of
    that is the parameter `astray`.
 */
module SprotoLengths {
  import opened Basics
  import opened LittleEndian
  import opened SprotoCodec
  import opened SprotoRoundTrip

  // --------------------------------------------------------------- the 32-bit sum

  /** sz + SIZEOF_LENGTH, for a uint32_t sz. */
  function Advance(n: nat): nat { (n + 4) % W32 }

  predicate Runs(n: nat) { n + 4 >= W32 }

  lemma AdvanceIs(n: nat)
    requires n < W32
    ensures Runs(n) ==> Advance(n) == n + 4 - W32 < 4
    ensures !Runs(n) ==> Advance(n) == n + 4
  {
  }

  /** A field whose block has a length of 2^32 - 4 or more; `data` starts with that length. No loop
      over a negative length starts; a string of that length is an error of the Lua library, and a
      message of negative size is too short. An integer array is read when the number of bytes
      behind its width is a multiple of the width. */
  function Runaway(f: Field, n: nat, data: seq<Byte>, astray: Got): Got {
    if !f.many then Wrong
    else
      match f.ty
      case TInteger => if n == W32 - 3 && (|data| <= 4 || data[4] == 4) then astray else Wrong
      case TBoolean => astray
      case TString => Nothing
      case TStruct(_) => Nothing
  }

  function SrcMsg(types: Schema, t: nat, s: seq<Byte>, astray: Got): (r: Option<Decoded>)
    requires t < |types|
    ensures r.Some? ==> r.value.used <= |s|
    decreases |s|, 3
  {
    if |s| < 2 then None
    else
      var n := 2 * Val(s[..2]);
      if |s| - 2 < n then None
      else
        match SrcFields(types, types[t], Unwords(s[2..2 + n]), -1, s[2 + n..], astray)
        case None => None
        case Some(r) => Some(Decoded(Msg(r.entries), |s| - |r.rest|))
  }

  function SrcFields(types: Schema, fs: seq<Field>, records: seq<nat>, tag: int, data: seq<Byte>, astray: Got): (r: Option<Fields>)
    ensures r.Some? ==> |r.value.rest| <= |data|
    decreases |data|, 2, |records|
  {
    if records == [] then Some(Fields([], data))
    else
      var w := records[0];
      if w % 2 == 1 then SrcFields(types, fs, records[1..], tag + 1 + w / 2, data, astray)
      else if w == 0 then
        if |data| < 4 || |data| < Advance(Val(data[..4])) then None
        else
          var n := Val(data[..4]);
          var got := SrcFound(types, fs, tag + 1, n, data, astray);
          if got.Wrong? then None
          else Found(tag + 1, got, SrcFields(types, fs, records[1..], tag + 1, data[Advance(n)..], astray))
      else
        var got := match Find(fs, tag + 1) case None => Nothing case Some(f) => DecInline(f, w / 2 - 1);
        if got.Wrong? then None else Found(tag + 1, got, SrcFields(types, fs, records[1..], tag + 1, data, astray))
  }

  /** The block at the start of `data`, which announces `n` bytes. */
  function SrcFound(types: Schema, fs: seq<Field>, tag: int, n: nat, data: seq<Byte>, astray: Got): Got
    requires Runs(n) || |data| - 4 >= n
    decreases |data|, 1
  {
    match Find(fs, tag)
    case None => Nothing
    case Some(f) => if Runs(n) then Runaway(f, n, data, astray) else SrcBlock(types, f, data[4..4 + n], astray)
  }

  function SrcBlock(types: Schema, f: Field, b: seq<Byte>, astray: Got): Got
    decreases |b|, 4
  {
    match f.ty
    case TStruct(t) =>
      if t >= |types| then Wrong
      else if f.many then
        (match SrcMsgs(types, t, b, astray)
         case None => Wrong
         case Some(ms) => if ms == [] then Nothing else Value(MsgsV(ms)))
      else
        (match SrcMsg(types, t, b, astray)
         case None => Wrong
         case Some(d) => if d.used == |b| then Value(MsgV(d.m)) else Wrong)
    case _ => DecBlock(types, f, b)
  }

  function SrcMsgs(types: Schema, t: nat, b: seq<Byte>, astray: Got): Option<seq<Msg>>
    requires t < |types|
    decreases |b|, 3
  {
    if b == [] then Some([])
    else if |b| < 4 || |b| - 4 < Val(b[..4]) then None
    else
      var n := Val(b[..4]);
      match SrcMsg(types, t, b[4..4 + n], astray)
      case None => None
      case Some(d) =>
        if d.used != n then None
        else
          match SrcMsgs(types, t, b[4 + n..], astray)
          case None => None
          case Some(ms) => Some([d.m] + ms)
  }

  // ------------------------------------------------------------- announced lengths

  /** Every length that the decoder comes across is below 2^32 - 4. */
  ghost predicate ShortMsg(types: Schema, t: nat, s: seq<Byte>)
    requires t < |types|
    decreases |s|, 3
  {
    |s| >= 2 && |s| - 2 >= 2 * Val(s[..2]) ==>
      ShortFields(types, types[t], Unwords(s[2..2 + 2 * Val(s[..2])]), -1, s[2 + 2 * Val(s[..2])..])
  }

  ghost predicate ShortFields(types: Schema, fs: seq<Field>, records: seq<nat>, tag: int, data: seq<Byte>)
    decreases |data|, 2, |records|
  {
    if records == [] then true
    else
      var w := records[0];
      if w % 2 == 1 then ShortFields(types, fs, records[1..], tag + 1 + w / 2, data)
      else if w > 0 then ShortFields(types, fs, records[1..], tag + 1, data)
      else if |data| < 4 then true
      else
        var n := Val(data[..4]);
        && !Runs(n)
        && (|data| - 4 >= n ==>
              && (Find(fs, tag + 1).Some? ==> ShortBlock(types, Find(fs, tag + 1).value, data[4..4 + n]))
              && ShortFields(types, fs, records[1..], tag + 1, data[4 + n..]))
  }

  ghost predicate ShortBlock(types: Schema, f: Field, b: seq<Byte>)
    decreases |b|, 4
  {
    f.ty.TStruct? && f.ty.sub < |types| ==>
      if f.many then ShortMsgs(types, f.ty.sub, b) else ShortMsg(types, f.ty.sub, b)
  }

  ghost predicate ShortMsgs(types: Schema, t: nat, b: seq<Byte>)
    requires t < |types|
    decreases |b|, 3
  {
    |b| >= 4 && |b| - 4 >= Val(b[..4]) ==>
      ShortMsg(types, t, b[4..4 + Val(b[..4])]) && ShortMsgs(types, t, b[4 + Val(b[..4])..])
  }

  // -------------------------------------------------- the source against the format

  /** How two readings of the same bytes compare: the same when all lengths are short; otherwise
      the format rejects them, unless both do. */
  ghost predicate Compares<T>(src: Option<T>, dec: Option<T>, short: bool) {
    && (short ==> src == dec)
    && (!short ==> dec == None)
  }

  lemma {:induction false} FieldsCompare(types: Schema, fs: seq<Field>, records: seq<nat>, tag: int, data: seq<Byte>, astray: Got)
    requires |data| < H31
    ensures Compares(SrcFields(types, fs, records, tag, data, astray), DecFields(types, fs, records, tag, data),
                     ShortFields(types, fs, records, tag, data))
    decreases |data|, 2, |records|
  {
    hide Val, Find, DecBlock, SrcBlock, ShortBlock, DecInline, Found, Advance;
    if records != [] {
      var w := records[0];
      if w % 2 == 1 {
        FieldsCompare(types, fs, records[1..], tag + 1 + w / 2, data, astray);
      } else if w > 0 {
        FieldsCompare(types, fs, records[1..], tag + 1, data, astray);
        NoneFound(tag + 1, DecInlineAt(fs, tag + 1, w));
      } else if |data| >= 4 {
        var n := Val(data[..4]);
        LengthFits(data);
        AdvanceIs(n);
        if !Runs(n) && |data| - 4 >= n {
          FieldsCompare(types, fs, records[1..], tag + 1, data[4 + n..], astray);
          if Find(fs, tag + 1).Some? { BlockCompares(types, Find(fs, tag + 1).value, data[4..4 + n], astray); }
          NoneFound(tag + 1, SrcFound(types, fs, tag + 1, n, data, astray));
          NoneFound(tag + 1, GotBlock(types, fs, tag + 1, data[4..4 + n]));
        }
      }
    }
  }

  function DecInlineAt(fs: seq<Field>, tag: int, w: nat): Got
    requires w >= 2
  {
    match Find(fs, tag) case None => Nothing case Some(f) => DecInline(f, w / 2 - 1)
  }

  lemma NoneFound(tag: int, got: Got)
    ensures Found(tag, got, None) == None
  {
  }

  lemma LengthFits(data: seq<Byte>)
    requires |data| >= 4
    ensures Val(data[..4]) < W32
  {
    ValBound(data[..4]);
    Powers();
  }

  lemma {:induction false} BlockCompares(types: Schema, f: Field, b: seq<Byte>, astray: Got)
    requires |b| < H31
    ensures ShortBlock(types, f, b) ==> SrcBlock(types, f, b, astray) == DecBlock(types, f, b)
    ensures !ShortBlock(types, f, b) ==> DecBlock(types, f, b) == Wrong
    decreases |b|, 4
  {
    hide SrcMsg, DecMsg, SrcMsgs, DecMsgs, ShortMsg, ShortMsgs, DecInts, DecStrs;
    if f.ty.TStruct? && f.ty.sub < |types| {
      if f.many {
        MessagesCompare(types, f.ty.sub, b, astray);
      } else {
        MessageCompares(types, f.ty.sub, b, astray);
      }
    }
  }

  lemma {:induction false} MessagesCompare(types: Schema, t: nat, b: seq<Byte>, astray: Got)
    requires t < |types| && |b| < H31
    ensures Compares(SrcMsgs(types, t, b, astray), DecMsgs(types, t, b), ShortMsgs(types, t, b))
    decreases |b|, 3
  {
    hide Val, SrcMsg, DecMsg, ShortMsg;
    if |b| >= 4 && |b| - 4 >= Val(b[..4]) {
      var n := Val(b[..4]);
      MessageCompares(types, t, b[4..4 + n], astray);
      MessagesCompare(types, t, b[4 + n..], astray);
    }
  }

  /** When every announced length is short the source decodes as the format says; otherwise the
      format rejects the message. */
  lemma {:induction false} MessageCompares(types: Schema, t: nat, s: seq<Byte>, astray: Got)
    requires t < |types| && |s| < H31
    ensures Compares(SrcMsg(types, t, s, astray), DecMsg(types, t, s), ShortMsg(types, t, s))
    decreases |s|, 3
  {
    hide Val, SrcFields, DecFields, ShortFields, Unwords;
    if |s| >= 2 && |s| - 2 >= 2 * Val(s[..2]) {
      var n := 2 * Val(s[..2]);
      FieldsCompare(types, types[t], Unwords(s[2..2 + n]), -1, s[2 + n..], astray);
    }
  }

  /** Whatever the format accepts, the source decodes in the same way. */
  lemma FormatAccepted(types: Schema, t: nat, s: seq<Byte>, astray: Got)
    requires t < |types| && |s| < H31
    ensures DecMsg(types, t, s).Some? ==> SrcMsg(types, t, s, astray) == DecMsg(types, t, s)
  {
    hide SrcMsg, DecMsg, ShortMsg;
    MessageCompares(types, t, s, astray);
  }

  /** A message that the source accepts is one of the format if and only if every length that it
      announces is below 2^32 - 4. */
  lemma AcceptedIff(types: Schema, t: nat, s: seq<Byte>, astray: Got)
    requires t < |types| && |s| < H31 && SrcMsg(types, t, s, astray).Some?
    ensures DecMsg(types, t, s) == SrcMsg(types, t, s, astray) <==> ShortMsg(types, t, s)
    ensures DecMsg(types, t, s).Some? <==> ShortMsg(types, t, s)
  {
    hide SrcMsg, DecMsg, ShortMsg;
    MessageCompares(types, t, s, astray);
  }

  /** A block with such a length: its field is skipped when the tag is unknown or the field is an
      array of strings or messages, and the cursor moves by less than four bytes. */
  lemma RunawayStep(types: Schema, fs: seq<Field>, more: seq<nat>, tag: int, data: seq<Byte>, astray: Got)
    requires |data| >= 4 && Runs(Val(data[..4]))
    ensures Advance(Val(data[..4])) < 4
    ensures var n := Val(data[..4]);
            var f := Find(fs, tag);
            var rest := SrcFields(types, fs, more, tag, data[Advance(n)..], astray);
            && Advance(n) == n + 4 - W32
            && (f.None? || (f.value.many && (f.value.ty.TString? || f.value.ty.TStruct?)) ==>
                  SrcFields(types, fs, [0] + more, tag - 1, data, astray) == rest)
            && (f.Some? && !f.value.many ==> SrcFields(types, fs, [0] + more, tag - 1, data, astray) == None)
  {
    hide Val, Find;
    LengthFits(data);
    AdvanceIs(Val(data[..4]));
    assert ([0] + more)[0] == 0 && ([0] + more)[1..] == more;
    var rest := SrcFields(types, fs, more, tag, data[Advance(Val(data[..4]))..], astray);
    if rest.Some? { NothingFirst(rest.value.entries); }
  }

  /** Eight bytes that announce 2^32 - 4 bytes for an unknown tag: the source accepts them and uses
      four, the format rejects them. */
  lemma UnknownTagAccepted(astray: Got)
    ensures var s: seq<Byte> := [1, 0, 0, 0, 0xfc, 0xff, 0xff, 0xff];
            && SrcMsg([[]], 0, s, astray) == Some(Decoded(Msg([]), 4))
            && DecMsg([[]], 0, s) == None
            && !ShortMsg([[]], 0, s)
  {
    hide Val, SrcFields, DecFields, ShortFields, Unwords;
    var s: seq<Byte> := [1, 0, 0, 0, 0xfc, 0xff, 0xff, 0xff];
    var data: seq<Byte> := [0xfc, 0xff, 0xff, 0xff];
    assert s[..2] == [1, 0] && s[2..4] == [0, 0] && s[4..] == data;
    TwoBytes(1, 0);
    NoRecordWord();
    LongLength(data, astray);
  }

  lemma NoRecordWord()
    ensures Unwords([0, 0]) == [0]
  {
    TwoBytes(0, 0);
    hide Val;
    assert [0, 0][..2] == [0, 0] && [0, 0][2..] == [];
    assert Unwords([0, 0]) == [Val([0, 0])] + Unwords([]);
  }

  lemma LongLength(data: seq<Byte>, astray: Got)
    requires data == [0xfc, 0xff, 0xff, 0xff]
    ensures SrcFields([[]], [], [0], -1, data, astray) == Some(Fields([], data))
    ensures DecFields([[]], [], [0], -1, data) == None
    ensures !ShortFields([[]], [], [0], -1, data)
  {
    FourBytes(0xfc, 0xff, 0xff, 0xff);
    hide Val;
    assert data[..4] == data && data[0..] == data;
    AdvanceIs(0xffff_fffc);
    RunawayStep([[]], [], [], 0, data, astray);
    assert [0] + [] == [0];
  }

  lemma TwoBytes(a: Byte, b: Byte)
    ensures Val([a, b]) == a + 256 * b
  {
    assert [a, b][1..] == [b] && [b][1..] == [];
    assert Val([b]) == b;
  }

  lemma FourBytes(a: Byte, b: Byte, c: Byte, d: Byte)
    ensures Val([a, b, c, d]) == a + 256 * (b + 256 * (c + 256 * d))
  {
    assert [a, b, c, d][1..] == [b, c, d] && [b, c, d][1..] == [c, d];
    TwoBytes(c, d);
    assert Val([b, c, d]) == b + 256 * Val([c, d]);
  }
}
