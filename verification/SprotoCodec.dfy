/** The sproto message format (lualib/sproto/sproto.c) as functions: what `sproto_encode` writes
    and what `sproto_decode` reads. A decoder may know another version of the schema: it gets
    the message projected to the fields that both versions have.

    A message is a count of records, the records (16-bit words) and the data blocks. A record is
    a small value (even, not zero), the announcement of a data block (zero), or a number of tags
    to skip (odd). SprotoEncoder.dfy and SprotoDecoder.dfy hold the loops.
 */
module SprotoCodec {
  import opened Basics
  import opened LittleEndian

  // ------------------------------------------------------------------- schemas

  datatype Builtin = TInteger | TBoolean | TString | TStruct(sub: nat)

  datatype Field = Field(tag: nat, ty: Builtin, many: bool)

  /** The types of a schema; TStruct refers to them by index. */
  type Schema = seq<seq<Field>>

  const MAX_TAG: nat := 0x7ffe

  /** Tags come from 16-bit records and must ascend (import_type); subtypes must exist. */
  ghost predicate ValidType(fs: seq<Field>, n: nat) {
    && (forall i :: 0 <= i < |fs| ==> fs[i].tag <= MAX_TAG && (fs[i].ty.TStruct? ==> fs[i].ty.sub < n))
    && (forall i, j :: 0 <= i < j < |fs| ==> fs[i].tag < fs[j].tag)
  }

  ghost predicate Valid(types: Schema) {
    forall t :: 0 <= t < |types| ==> ValidType(types[t], |types|)
  }

  /** Linear search. */
  function Find(fs: seq<Field>, tag: int): (r: Option<Field>)
    ensures r.Some? ==> r.value in fs && r.value.tag == tag
    ensures r.None? ==> forall i :: 0 <= i < |fs| ==> fs[i].tag != tag
  {
    if fs == [] then None else if fs[0].tag == tag then Some(fs[0]) else Find(fs[1..], tag)
  }

  /** Two versions of a schema agree on the tags that they share; `pairs` lists the types that
      correspond to each other. */
  ghost predicate Agree(types1: Schema, types2: Schema, pairs: set<(nat, nat)>) {
    && (forall p :: p in pairs ==> p.0 < |types1| && p.1 < |types2|)
    && (forall p, f, g :: p in pairs && f in types1[p.0] && g in types2[p.1] && f.tag == g.tag ==> SameField(f, g, pairs))
  }

  ghost predicate SameField(f: Field, g: Field, pairs: set<(nat, nat)>) {
    f.many == g.many && if f.ty.TStruct? then g.ty.TStruct? && (f.ty.sub, g.ty.sub) in pairs else f.ty == g.ty
  }

  // ------------------------------------------------------------------ messages

  datatype Value =
    | IntV(n: int)
    | BoolV(b: bool)
    | StrV(s: seq<Byte>)
    | MsgV(m: Msg)
    | IntsV(ns: seq<int>)
    | BoolsV(bs: seq<bool>)
    | StrsV(ss: seq<seq<Byte>>)
    | MsgsV(ms: seq<Msg>)

  datatype Entry = Entry(tag: nat, value: Value)

  datatype Msg = Msg(entries: seq<Entry>)

  /** The value of a field of the table that is encoded. */
  function Get(m: Msg, tag: nat): (r: Option<Value>)
    ensures r.Some? ==> r.value < m
  {
    Lookup(m, tag, 0)
  }

  function Lookup(m: Msg, tag: nat, i: nat): (r: Option<Value>)
    requires i <= |m.entries|
    ensures r.Some? ==> r.value < m
    decreases |m.entries| - i
  {
    if i == |m.entries| then None
    else if m.entries[i].tag == tag then Some(m.entries[i].value)
    else Lookup(m, tag, i + 1)
  }

  // --------------------------------------------------------------- byte strings

  /** expand64 gives the 64-bit word of the same signed number. */
  function Expand64(u: nat): nat
    requires u < W32
  {
    if u >= H31 then u + (W64 - W32) else u
  }

  lemma ExpandKeeps(u: nat)
    requires u < W32
    ensures Expand64(u) < W64 && Signed64(Expand64(u)) == Signed32(u)
  {
  }

  /** v >> 31 is 0 or -1. */
  predicate Short(n: int) { -H31 <= n < H31 }

  predicate Long(n: int) { -H63 <= n < H63 }

  function Words(ws: seq<nat>): (s: seq<Byte>)
    ensures |s| == 2 * |ws|
  {
    if ws == [] then [] else LE(ws[0], 2) + Words(ws[1..])
  }

  function Unwords(s: seq<Byte>): (ws: seq<nat>)
    requires |s| % 2 == 0
    ensures |ws| == |s| / 2
  {
    if s == [] then [] else [Val(s[..2])] + Unwords(s[2..])
  }

  lemma {:induction false} UnwordsWords(ws: seq<nat>)
    requires forall i :: 0 <= i < |ws| ==> ws[i] < W16
    ensures Unwords(Words(ws)) == ws
  {
    if ws != [] {
      Fits2(ws[0]);
      UnwordsWords(ws[1..]);
      var s := Words(ws);
      assert s[..2] == LE(ws[0], 2) && s[2..] == Words(ws[1..]);
    }
  }

  // ------------------------------------------------------------------ encoding

  /** What a field contributes: nothing, a small value in its record, or a data block. */
  datatype Part = Absent | Inline(n: nat) | Block(bytes: seq<Byte>) | Bad

  /** The body of a message. */
  datatype Body = Body(records: seq<nat>, data: seq<Byte>)

  function Sized(s: seq<Byte>): (r: seq<Byte>)
    ensures |r| == 4 + |s|
  {
    LE(|s|, 4) + s
  }

  function Ints(ns: seq<int>, width: nat): (s: seq<Byte>)
    requires width == 4 || width == 8
    ensures |s| == width * |ns|
  {
    if ns == [] then []
    else LE(ns[0] % (if width == 4 then W32 else W64), width) + Ints(ns[1..], width)
  }

  predicate AllShort(ns: seq<int>) { forall i :: 0 <= i < |ns| ==> Short(ns[i]) }

  predicate AllLong(ns: seq<int>) { forall i :: 0 <= i < |ns| ==> Long(ns[i]) }

  /** One number that needs 64 bits widens the whole array. */
  function Width(ns: seq<int>): (w: nat)
    ensures w == 4 || w == 8
  {
    if AllShort(ns) then 4 else 8
  }

  function Bools(bs: seq<bool>): (s: seq<Byte>)
    ensures |s| == |bs|
  {
    seq(|bs|, i requires 0 <= i < |bs| => if bs[i] then 1 else 0)
  }

  function Strs(ss: seq<seq<Byte>>): seq<Byte> {
    if ss == [] then [] else Sized(ss[0]) + Strs(ss[1..])
  }

  function EncValue(types: Schema, f: Field, v: Value): Part
    decreases v, 0
  {
    match v
    case IntV(n) =>
      if f.many || !f.ty.TInteger? then Bad
      else if Short(n) then (if n % W32 < 0x7fff then Inline((n % W32 + 1) * 2) else Block(LE(n % W32, 4)))
      else if Long(n) then Block(LE(n % W64, 8))
      else Bad
    case BoolV(b) => if f.many || !f.ty.TBoolean? then Bad else Inline(if b then 4 else 2)
    case StrV(s) => if f.many || !f.ty.TString? then Bad else Block(s)
    case MsgV(m) =>
      if f.many || !f.ty.TStruct? || f.ty.sub >= |types| then Bad
      else
        (match EncMsg(types, f.ty.sub, m)
         case None => Bad
         case Some(b) => Block(b))
    case IntsV(ns) =>
      if !f.many || !f.ty.TInteger? || !AllLong(ns) then Bad
      else if ns == [] then Absent else Block([Width(ns)] + Ints(ns, Width(ns)))
    case BoolsV(bs) => if !f.many || !f.ty.TBoolean? then Bad else if bs == [] then Absent else Block(Bools(bs))
    case StrsV(ss) => if !f.many || !f.ty.TString? then Bad else if ss == [] then Absent else Block(Strs(ss))
    case MsgsV(ms) =>
      if !f.many || !f.ty.TStruct? || f.ty.sub >= |types| then Bad
      else
        (match EncMsgs(types, f.ty.sub, v, 0)
         case None => Bad
         case Some(b) => if ms == [] then Absent else Block(b))
  }

  /** The messages of an array, from index `i`. */
  function EncMsgs(types: Schema, t: nat, v: Value, i: nat): Option<seq<Byte>>
    requires t < |types| && v.MsgsV? && i <= |v.ms|
    decreases v, 0, |v.ms| - i
  {
    if i == |v.ms| then Some([])
    else
      match EncMsg(types, t, v.ms[i])
      case None => None
      case Some(b) =>
        match EncMsgs(types, t, v, i + 1)
        case None => None
        case Some(rest) => Some(Sized(b) + rest)
  }

  function Skip(gap: int): seq<nat> { if gap > 0 then [(gap - 1) * 2 + 1] else [] }

  /** The fields from index `i`, after a record for tag `last`. */
  function EncFields(types: Schema, fs: seq<Field>, i: nat, last: int, m: Msg): Option<Body>
    requires i <= |fs|
    decreases m, 1, |fs| - i
  {
    if i == |fs| then Some(Body([], []))
    else
      var f := fs[i];
      var part := match Get(m, f.tag) case None => Absent case Some(v) => EncValue(types, f, v);
      match part
      case Bad => None
      case Absent => EncFields(types, fs, i + 1, last, m)
      case Inline(n) => Prepend(f.tag - last - 1, n, [], EncFields(types, fs, i + 1, f.tag, m))
      case Block(b) => Prepend(f.tag - last - 1, 0, Sized(b), EncFields(types, fs, i + 1, f.tag, m))
  }

  /** The records of one field in front of the others. A gap too large for a record is an error. */
  function Prepend(gap: int, record: nat, data: seq<Byte>, body: Option<Body>): Option<Body> {
    if body.None? || (gap > 0 && (gap - 1) * 2 + 1 > 0xffff) then None
    else Some(Body(Skip(gap) + [record] + body.value.records, data + body.value.data))
  }

  function EncMsg(types: Schema, t: nat, m: Msg): Option<seq<Byte>>
    requires t < |types|
    decreases m, 2
  {
    match EncFields(types, types[t], 0, -1, m)
    case None => None
    case Some(b) => Some(Assemble(b))
  }

  function Assemble(b: Body): (s: seq<Byte>)
    ensures |s| == 2 + 2 * |b.records| + |b.data|
  {
    LE(|b.records|, 2) + (Words(b.records) + b.data)
  }

  // ------------------------------------------------------------------ decoding

  /** A block can be wrong, or give no value: nothing is stored for an array without elements. */
  datatype Got = Wrong | Nothing | Value(v: Value)

  datatype Fields = Fields(entries: seq<Entry>, rest: seq<Byte>)

  datatype Decoded = Decoded(m: Msg, used: nat)

  function DecMsg(types: Schema, t: nat, s: seq<Byte>): (r: Option<Decoded>)
    requires t < |types|
    ensures r.Some? ==> r.value.used <= |s|
    decreases |s|, 3
  {
    if |s| < 2 then None
    else
      var n := 2 * Val(s[..2]);
      if |s| - 2 < n then None
      else
        match DecFields(types, types[t], Unwords(s[2..2 + n]), -1, s[2 + n..])
        case None => None
        case Some(r) => Some(Decoded(Msg(r.entries), |s| - |r.rest|))
  }

  /** The records after one for `tag`; `data` starts with the next block. */
  function DecFields(types: Schema, fs: seq<Field>, records: seq<nat>, tag: int, data: seq<Byte>): (r: Option<Fields>)
    ensures r.Some? ==> |r.value.rest| <= |data|
    decreases |data|, 2, |records|
  {
    if records == [] then Some(Fields([], data))
    else
      var w := records[0];
      if w % 2 == 1 then DecFields(types, fs, records[1..], tag + 1 + w / 2, data)
      else if w == 0 then
        if |data| < 4 || |data| - 4 < Val(data[..4]) then None
        else
          var n := Val(data[..4]);
          var got := match Find(fs, tag + 1) case None => Nothing case Some(f) => DecBlock(types, f, data[4..4 + n]);
          if got.Wrong? then None
          else Found(tag + 1, got, DecFields(types, fs, records[1..], tag + 1, data[4 + n..]))
      else
        var got := match Find(fs, tag + 1) case None => Nothing case Some(f) => DecInline(f, w / 2 - 1);
        if got.Wrong? then None else Found(tag + 1, got, DecFields(types, fs, records[1..], tag + 1, data))
  }

  function Found(tag: int, got: Got, r: Option<Fields>): (r': Option<Fields>)
    ensures r.Some? && r'.Some? ==> r'.value.rest == r.value.rest
    ensures r.None? ==> r'.None?
  {
    if r.None? then None
    else Some(Fields((if got.Value? && tag >= 0 then [Entry(tag, got.v)] else []) + r.value.entries, r.value.rest))
  }

  function DecInline(f: Field, n: nat): Got {
    if f.many then Wrong
    else if f.ty.TInteger? then Value(IntV(n))
    else if f.ty.TBoolean? then Value(BoolV(n != 0))
    else Wrong
  }

  function DecBlock(types: Schema, f: Field, b: seq<Byte>): Got
    decreases |b|, 4
  {
    if f.many then
      match f.ty
      case TInteger => DecInts(b)
      case TBoolean => if b == [] then Nothing else Value(BoolsV(seq(|b|, i requires 0 <= i < |b| => b[i] != 0)))
      case TString =>
        (match DecStrs(b)
         case None => Wrong
         case Some(ss) => if ss == [] then Nothing else Value(StrsV(ss)))
      case TStruct(t) =>
        if t >= |types| then Wrong
        else
          (match DecMsgs(types, t, b)
           case None => Wrong
           case Some(ms) => if ms == [] then Nothing else Value(MsgsV(ms)))
    else
      match f.ty
      case TInteger =>
        if |b| == 4 then Value(IntV(Signed32(Val(b)))) else if |b| == 8 then Value(IntV(Signed64(Val(b)))) else Wrong
      case TBoolean => Wrong
      case TString => Value(StrV(b))
      case TStruct(t) =>
        if t >= |types| then Wrong
        else
          match DecMsg(types, t, b)
          case None => Wrong
          case Some(d) => if d.used == |b| then Value(MsgV(d.m)) else Wrong
  }

  function Unints(b: seq<Byte>, width: nat): seq<int>
    requires width == 4 || width == 8
  {
    if |b| < width then []
    else [if width == 4 then Signed32(Val(b[..4])) else Signed64(Val(b[..8]))] + Unints(b[width..], width)
  }

  function DecInts(b: seq<Byte>): Got {
    if b == [] then Wrong
    else if b[0] != 4 && b[0] != 8 then Wrong
    else if (|b| - 1) % b[0] != 0 then Wrong
    else if |b| == 1 then Nothing
    else Value(IntsV(Unints(b[1..], b[0])))
  }

  function DecStrs(b: seq<Byte>): Option<seq<seq<Byte>>>
    decreases |b|
  {
    if b == [] then Some([])
    else if |b| < 4 || |b| - 4 < Val(b[..4]) then None
    else
      var n := Val(b[..4]);
      match DecStrs(b[4 + n..])
      case None => None
      case Some(ss) => Some([b[4..4 + n]] + ss)
  }

  function DecMsgs(types: Schema, t: nat, b: seq<Byte>): Option<seq<Msg>>
    requires t < |types|
    decreases |b|, 3
  {
    if b == [] then Some([])
    else if |b| < 4 || |b| - 4 < Val(b[..4]) then None
    else
      var n := Val(b[..4]);
      match DecMsg(types, t, b[4..4 + n])
      case None => None
      case Some(d) =>
        if d.used != n then None
        else
          match DecMsgs(types, t, b[4 + n..])
          case None => None
          case Some(ms) => Some([d.m] + ms)
  }
}
