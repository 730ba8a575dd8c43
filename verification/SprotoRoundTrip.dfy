/** Decoding what was encoded (lualib/sproto/sproto.c), also with another version of the schema.
 */
module SprotoRoundTrip {
  import opened Basics
  import opened LittleEndian
  import opened SprotoCodec

  // ------------------------------------------------------------ what comes back

  predicate EmptyArray(v: Value) {
    match v
    case IntsV(ns) => ns == []
    case BoolsV(bs) => bs == []
    case StrsV(ss) => ss == []
    case MsgsV(ms) => ms == []
    case _ => false
  }

  /** The message that a decoder with type `t2` gets from one of type `t1`: the fields that both
      know, in the order of their tags, without empty arrays. */
  function Project(types1: Schema, t1: nat, types2: Schema, t2: nat, m: Msg): Msg
    decreases m, 2
  {
    if t1 < |types1| && t2 < |types2| then Msg(ProjectFields(types1, t1, types2, t2, m, 0)) else m
  }

  function ProjectFields(types1: Schema, t1: nat, types2: Schema, t2: nat, m: Msg, i: nat): seq<Entry>
    requires t1 < |types1| && t2 < |types2| && i <= |types1[t1]|
    decreases m, 1, |types1[t1]| - i
  {
    if i == |types1[t1]| then []
    else
      var f := types1[t1][i];
      (match Get(m, f.tag)
       case None => []
       case Some(v) => ProjectField(types1, f, types2, Find(types2[t2], f.tag), v)) +
      ProjectFields(types1, t1, types2, t2, m, i + 1)
  }

  function ProjectField(types1: Schema, f: Field, types2: Schema, g: Option<Field>, v: Value): seq<Entry>
    decreases v, 1
  {
    if EmptyArray(v) || g.None? then []
    else [Entry(f.tag, ProjectValue(types1, f, types2, g.value, v))]
  }

  function ProjectValue(types1: Schema, f: Field, types2: Schema, g: Field, v: Value): Value
    decreases v, 0
  {
    if !f.ty.TStruct? || !g.ty.TStruct? then v
    else
      match v
      case MsgV(m) => MsgV(Project(types1, f.ty.sub, types2, g.ty.sub, m))
      case MsgsV(_) => MsgsV(ProjectMsgs(types1, f.ty.sub, types2, g.ty.sub, v, 0))
      case _ => v
  }

  function ProjectMsgs(types1: Schema, t1: nat, types2: Schema, t2: nat, v: Value, i: nat): (r: seq<Msg>)
    requires v.MsgsV? && i <= |v.ms|
    ensures |r| == |v.ms| - i
    decreases v, 0, |v.ms| - i
  {
    if i == |v.ms| then [] else [Project(types1, t1, types2, t2, v.ms[i])] + ProjectMsgs(types1, t1, types2, t2, v, i + 1)
  }

  // -------------------------------------------------------------------- records

  function Prev(fs: seq<Field>, i: nat): int
    requires i <= |fs|
  {
    if i == 0 then -1 else fs[i - 1].tag
  }

  /** The records that fields `i`.. can need: import_type's `maxn`, for i == 0. */
  function Slots(fs: seq<Field>, i: nat): nat
    requires i <= |fs|
    decreases |fs| - i
  {
    if i == |fs| then 0 else 1 + (if fs[i].tag > Prev(fs, i) + 1 then 1 else 0) + Slots(fs, i + 1)
  }

  /** The records never exceed `maxn`: a tag to skip is a gap of the schema or pays with the
      record of an absent field. */
  lemma {:induction false} RecordsFit(types: Schema, fs: seq<Field>, i: nat, last: int, m: Msg)
    requires ValidType(fs, |types|) && i <= |fs| && last <= Prev(fs, i)
    requires EncFields(types, fs, i, last, m).Some?
    ensures |EncFields(types, fs, i, last, m).value.records| <= Slots(fs, i) + if last < Prev(fs, i) then 1 else 0
    decreases |fs| - i
  {
    hide EncValue;
    if i < |fs| {
      var f := fs[i];
      var part := match Get(m, f.tag) case None => Absent case Some(v) => EncValue(types, f, v);
      RecordsFit(types, fs, i + 1, if part.Absent? then last else f.tag, m);
    }
  }

  lemma {:induction false} SlotsSmall(fs: seq<Field>, n: nat, i: nat)
    requires ValidType(fs, n) && i <= |fs|
    ensures Slots(fs, i) <= 2 * (|fs| - i)
    decreases |fs| - i
  {
    if i < |fs| { SlotsSmall(fs, n, i + 1); }
  }

  lemma {:induction false} TagsAscend(fs: seq<Field>, n: nat, i: nat)
    requires ValidType(fs, n) && i < |fs|
    ensures fs[i].tag >= i
  {
    if i > 0 { TagsAscend(fs, n, i - 1); }
  }

  lemma MaxnFits(fs: seq<Field>, n: nat)
    requires ValidType(fs, n)
    ensures Slots(fs, 0) < W16
  {
    SlotsSmall(fs, n, 0);
    if |fs| > 0 { TagsAscend(fs, n, |fs| - 1); }
  }

  ghost predicate AllWords(ws: seq<nat>) {
    forall k :: 0 <= k < |ws| ==> ws[k] < W16
  }

  lemma InlineIsWord(types: Schema, f: Field, v: Value)
    ensures EncValue(types, f, v).Inline? ==> 0 < EncValue(types, f, v).n < W16 && EncValue(types, f, v).n % 2 == 0
  {
  }

  lemma {:induction false} RecordsAreWords(types: Schema, fs: seq<Field>, i: nat, last: int, m: Msg)
    requires i <= |fs| && EncFields(types, fs, i, last, m).Some?
    ensures AllWords(EncFields(types, fs, i, last, m).value.records)
    decreases |fs| - i
  {
    hide EncValue;
    if i < |fs| {
      var f := fs[i];
      if Get(m, f.tag).Some? { InlineIsWord(types, f, Get(m, f.tag).value); }
      var part := match Get(m, f.tag) case None => Absent case Some(v) => EncValue(types, f, v);
      RecordsAreWords(types, fs, i + 1, if part.Absent? then last else f.tag, m);
    }
  }

  // ---------------------------------------------------------------- reading back

  lemma Cut<T>(a: seq<T>, b: seq<T>)
    ensures (a + b)[..|a|] == a && (a + b)[|a|..] == b
  {
  }

  lemma Assoc<T>(a: seq<T>, b: seq<T>, c: seq<T>)
    ensures (a + b) + c == a + (b + c)
  {
  }

  /** A sized block in front of other data. */
  lemma SizedFirst(b: seq<Byte>, rest: seq<Byte>)
    requires |b| < W32
    ensures var s := Sized(b) + rest;
            |s| >= 4 && Val(s[..4]) == |b| && |s| - 4 >= |b| && s[4..4 + |b|] == b && s[4 + |b|..] == rest
  {
    Fits4(|b|);
    hide Val, LE;
    Assoc(LE(|b|, 4), b, rest);
    Cut(LE(|b|, 4), b + rest);
    var s := LE(|b|, 4) + (b + rest);
    assert s[4..4 + |b|] == s[4..][..|b|] && s[4 + |b|..] == s[4..][|b|..];
    Cut(b, rest);
  }

  /** Skipping brings the tag to just before the field's. */
  lemma SkipsTo(types: Schema, fs: seq<Field>, tag: int, last: int, more: seq<nat>, data: seq<Byte>)
    requires last < tag
    ensures DecFields(types, fs, Skip(tag - last - 1) + more, last, data) == DecFields(types, fs, more, tag - 1, data)
  {
    var gap := tag - last - 1;
    if gap > 0 {
      var ws := Skip(gap) + more;
      assert ws[0] == (gap - 1) * 2 + 1 && ws[1..] == more;
    } else {
      assert Skip(gap) + more == more;
    }
  }

  ghost function GotBlock(types: Schema, fs: seq<Field>, tag: int, b: seq<Byte>): Got {
    match Find(fs, tag) case None => Nothing case Some(f) => DecBlock(types, f, b)
  }

  ghost function GotInline(fs: seq<Field>, tag: int, n: nat): Got {
    match Find(fs, tag) case None => Nothing case Some(f) => DecInline(f, n)
  }

  lemma BlockRecord(types: Schema, fs: seq<Field>, tag: int, records: seq<nat>, b: seq<Byte>, data: seq<Byte>)
    requires |b| < W32 && !GotBlock(types, fs, tag, b).Wrong?
    ensures DecFields(types, fs, [0] + records, tag - 1, Sized(b) + data) ==
            Found(tag, GotBlock(types, fs, tag, b), DecFields(types, fs, records, tag, data))
  {
    hide DecBlock, Find, Sized, Found;
    SizedFirst(b, data);
    Cut([0], records);
    assert ([0] + records)[1..] == records && ([0] + records)[0] == 0;
  }

  lemma InlineRecord(types: Schema, fs: seq<Field>, tag: int, records: seq<nat>, w: nat, data: seq<Byte>)
    requires w > 0 && w % 2 == 0 && !GotInline(fs, tag, w / 2 - 1).Wrong?
    ensures DecFields(types, fs, [w] + records, tag - 1, data) ==
            Found(tag, GotInline(fs, tag, w / 2 - 1), DecFields(types, fs, records, tag, data))
  {
    hide DecInline, Find, Found;
    assert ([w] + records)[1..] == records && ([w] + records)[0] == w;
  }

  lemma {:induction false} IntsBack(ns: seq<int>, width: nat)
    requires (width == 4 && AllShort(ns)) || (width == 8 && AllLong(ns))
    ensures Unints(Ints(ns, width), width) == ns
  {
    if ns != [] {
      IntsBack(ns[1..], width);
      SignedBack(ns[0]);
      Fits4(ns[0] % W32);
      Fits8(ns[0] % W64);
      var head := LE(ns[0] % (if width == 4 then W32 else W64), width);
      hide LE, Val;
      Cut(head, Ints(ns[1..], width));
    }
  }

  lemma DecIntsBack(ns: seq<int>)
    requires AllLong(ns) && ns != []
    ensures DecInts([Width(ns)] + Ints(ns, Width(ns))) == Value(IntsV(ns))
  {
    var w := Width(ns);
    var b := [w] + Ints(ns, w);
    IntsBack(ns, w);
    hide Ints, Unints;
    Multiple(w, |ns|);
    assert b[1..] == Ints(ns, w) && b[0] == w;
  }

  lemma Multiple(w: nat, n: nat)
    requires w > 0
    ensures (w * n) % w == 0 && (n > 0 ==> w * n >= w)
  {
    var k := w * n / w - n;
    assert k * w == -(w * n % w);
    MultipleIsLarge(k, w);
    MultipleIsLarge(n, w);
  }

  lemma BoolsBack(bs: seq<bool>)
    ensures seq(|Bools(bs)|, i requires 0 <= i < |Bools(bs)| => Bools(bs)[i] != 0) == bs
  {
  }

  lemma {:induction false} StrsBack(ss: seq<seq<Byte>>)
    requires |Strs(ss)| < W32
    ensures DecStrs(Strs(ss)) == Some(ss)
  {
    if ss != [] {
      var rest := Strs(ss[1..]);
      StrsBack(ss[1..]);
      SizedFirst(ss[0], rest);
      hide Sized, Strs;
      assert ss == [ss[0]] + ss[1..];
    }
  }

  lemma StrsNotEmpty(ss: seq<seq<Byte>>)
    ensures Strs(ss) == [] <==> ss == []
  {
  }

  // -------------------------------------------------------------- the round trip

  /** Small values. */
  lemma InlineBack(types1: Schema, f: Field, types2: Schema, g: Field, v: Value)
    requires EncValue(types1, f, v).Inline? && f.many == g.many && (f.ty.TStruct? || f.ty == g.ty)
    ensures DecInline(g, EncValue(types1, f, v).n / 2 - 1) == Value(ProjectValue(types1, f, types2, g, v))
    ensures !EmptyArray(v)
  {
    if v.IntV? { SignedBack(v.n); }
  }

  /** Blocks that hold no messages. */
  lemma PlainBlockBack(types1: Schema, f: Field, types2: Schema, g: Field, v: Value)
    requires EncValue(types1, f, v).Block? && |EncValue(types1, f, v).bytes| < W32
    requires f.many == g.many && f.ty == g.ty && !f.ty.TStruct?
    ensures DecBlock(types2, g, EncValue(types1, f, v).bytes) == Value(v)
    ensures ProjectValue(types1, f, types2, g, v) == v && !EmptyArray(v)
  {
    match v
    case IntV(n) =>
      SignedBack(n);
      Fits4(n % W32);
      Fits8(n % W64);
    case IntsV(ns) => DecIntsBack(ns);
    case BoolsV(bs) => BoolsBack(bs);
    case StrsV(ss) => StrsBack(ss); StrsNotEmpty(ss);
    case _ =>
  }

  /** A block of the encoder is what the decoder makes of it. */
  lemma {:induction false} BlockBack(types1: Schema, f: Field, types2: Schema, g: Field, pairs: set<(nat, nat)>, v: Value)
    requires Valid(types1) && Agree(types1, types2, pairs) && SameField(f, g, pairs)
    requires EncValue(types1, f, v).Block? && |EncValue(types1, f, v).bytes| < W32
    ensures DecBlock(types2, g, EncValue(types1, f, v).bytes) == Value(ProjectValue(types1, f, types2, g, v))
    ensures !EmptyArray(v)
    decreases v, 0
  {
    if !f.ty.TStruct? {
      PlainBlockBack(types1, f, types2, g, v);
    } else {
      var t1, t2 := f.ty.sub, g.ty.sub;
      var b := EncValue(types1, f, v).bytes;
      match v
      case MsgV(m) =>
        MessageBack(types1, t1, types2, t2, pairs, m, []);
        assert b + [] == b;
      case MsgsV(ms) =>
        MessagesBack(types1, t1, types2, t2, pairs, v, 0);
        assert |ProjectMsgs(types1, t1, types2, t2, v, 0)| == |ms|;
      case _ =>
    }
  }

  lemma {:induction false} MessagesBack(types1: Schema, t1: nat, types2: Schema, t2: nat, pairs: set<(nat, nat)>, v: Value, i: nat)
    requires Valid(types1) && Agree(types1, types2, pairs) && (t1, t2) in pairs && v.MsgsV? && i <= |v.ms|
    requires EncMsgs(types1, t1, v, i).Some? && |EncMsgs(types1, t1, v, i).value| < W32
    ensures DecMsgs(types2, t2, EncMsgs(types1, t1, v, i).value) == Some(ProjectMsgs(types1, t1, types2, t2, v, i))
    decreases v, 0, |v.ms| - i
  {
    hide EncMsg, DecMsg, Project;
    if i < |v.ms| {
      var b := EncMsg(types1, t1, v.ms[i]).value;
      var rest := EncMsgs(types1, t1, v, i + 1).value;
      MessagesBack(types1, t1, types2, t2, pairs, v, i + 1);
      MessageBack(types1, t1, types2, t2, pairs, v.ms[i], []);
      assert b + [] == b;
      SizedFirst(b, rest);
      hide Sized;
    }
  }

  /** The fields from index `i`, whatever follows their data. */
  lemma {:induction false} FieldsBack(types1: Schema, t1: nat, types2: Schema, t2: nat, pairs: set<(nat, nat)>,
                                      m: Msg, i: nat, last: int, rest: seq<Byte>)
    requires Valid(types1) && Agree(types1, types2, pairs) && (t1, t2) in pairs
    requires i <= |types1[t1]| && last <= Prev(types1[t1], i)
    requires EncFields(types1, types1[t1], i, last, m).Some? && |EncFields(types1, types1[t1], i, last, m).value.data| < W32
    ensures var body := EncFields(types1, types1[t1], i, last, m).value;
            DecFields(types2, types2[t2], body.records, last, body.data + rest) ==
            Some(Fields(ProjectFields(types1, t1, types2, t2, m, i), rest))
    decreases m, 1, 2 * (|types1[t1]| - i) + 1
  {
    hide EncValue, DecFields, ProjectValue, Find, DecBlock, DecInline, Sized;
    var fs := types1[t1];
    if i == |fs| {
      NoFields(types2, types2[t2], last, rest);
    } else {
      var f := fs[i];
      if Get(m, f.tag).None? {
        FieldsBack(types1, t1, types2, t2, pairs, m, i + 1, last, rest);
        NothingFirst(ProjectFields(types1, t1, types2, t2, m, i + 1));
      } else {
        PresentBack(types1, t1, types2, t2, pairs, m, i, last, rest);
      }
    }
  }

  lemma NoFields(types: Schema, fs: seq<Field>, last: int, rest: seq<Byte>)
    ensures DecFields(types, fs, [], last, [] + rest) == Some(Fields([], rest))
  {
    assert [] + rest == rest;
  }

  lemma NothingFirst<T>(s: seq<T>)
    ensures [] + s == s
  {
  }

  lemma AgreeOn(types1: Schema, t1: nat, types2: Schema, t2: nat, pairs: set<(nat, nat)>, i: nat)
    requires Agree(types1, types2, pairs) && (t1, t2) in pairs && i < |types1[t1]|
    ensures Find(types2[t2], types1[t1][i].tag).Some? ==> SameField(types1[t1][i], Find(types2[t2], types1[t1][i].tag).value, pairs)
  {
    var p := (t1, t2);
    assert types1[p.0][i] in types1[p.0];
  }

  lemma {:induction false} PresentBack(types1: Schema, t1: nat, types2: Schema, t2: nat, pairs: set<(nat, nat)>,
                                       m: Msg, i: nat, last: int, rest: seq<Byte>)
    requires Valid(types1) && Agree(types1, types2, pairs) && (t1, t2) in pairs
    requires i < |types1[t1]| && last <= Prev(types1[t1], i) && Get(m, types1[t1][i].tag).Some?
    requires EncFields(types1, types1[t1], i, last, m).Some? && |EncFields(types1, types1[t1], i, last, m).value.data| < W32
    ensures var body := EncFields(types1, types1[t1], i, last, m).value;
            DecFields(types2, types2[t2], body.records, last, body.data + rest) ==
            Some(Fields(ProjectFields(types1, t1, types2, t2, m, i), rest))
    decreases m, 1, 2 * (|types1[t1]| - i)
  {
    hide EncValue, DecFields, ProjectValue, Find, DecBlock, DecInline, Sized, Valid, Agree;
    PairFits(types1, types2, pairs, (t1, t2));
    var fs, f := types1[t1], types1[t1][i];
    var fs2, g := types2[t2], Find(types2[t2], types1[t1][i].tag);
    var v := Get(m, f.tag).value;
    var part := EncValue(types1, f, v);
    var tail := ProjectFields(types1, t1, types2, t2, m, i + 1);
    AgreeOn(types1, t1, types2, t2, pairs, i);
    Ascends(types1, t1, i, last);
    match part
    case Absent =>
      AbsentIsEmpty(types1, f, v);
      FieldsBack(types1, t1, types2, t2, pairs, m, i + 1, last, rest);
      NothingFirst(tail);
    case Inline(n) =>
      var body := EncFields(types1, fs, i + 1, f.tag, m).value;
      FieldsBack(types1, t1, types2, t2, pairs, m, i + 1, f.tag, rest);
      InlineIsWord(types1, f, v);
      InlineNotEmpty(types1, f, v);
      if g.Some? { InlineBack(types1, f, types2, g.value, v); }
      Assoc(Skip(f.tag - last - 1), [n], body.records);
      SkipsTo(types2, fs2, f.tag, last, [n] + body.records, body.data + rest);
      InlineRecord(types2, fs2, f.tag, body.records, n, body.data + rest);
      NothingFirst(body.data);
      NothingFirst(tail);
    case Block(b) =>
      var body := EncFields(types1, fs, i + 1, f.tag, m).value;
      FieldsBack(types1, t1, types2, t2, pairs, m, i + 1, f.tag, rest);
      BlockNotEmpty(types1, f, v);
      if g.Some? { BlockBack(types1, f, types2, g.value, pairs, v); }
      Assoc(Skip(f.tag - last - 1), [0], body.records);
      SkipsTo(types2, fs2, f.tag, last, [0] + body.records, Sized(b) + (body.data + rest));
      BlockRecord(types2, fs2, f.tag, body.records, b, body.data + rest);
      Assoc(Sized(b), body.data, rest);
      NothingFirst(tail);
    case Bad =>
  }

  lemma Ascends(types: Schema, t: nat, i: nat, last: int)
    requires Valid(types) && t < |types| && i < |types[t]| && last <= Prev(types[t], i)
    ensures last < types[t][i].tag && Prev(types[t], i + 1) == types[t][i].tag && last <= Prev(types[t], i + 1)
  {
  }

  lemma AbsentIsEmpty(types: Schema, f: Field, v: Value)
    requires EncValue(types, f, v).Absent?
    ensures EmptyArray(v)
  {
  }

  lemma InlineNotEmpty(types: Schema, f: Field, v: Value)
    requires EncValue(types, f, v).Inline?
    ensures !EmptyArray(v) && !f.ty.TStruct?
  {
  }

  lemma BlockNotEmpty(types: Schema, f: Field, v: Value)
    requires EncValue(types, f, v).Block?
    ensures !EmptyArray(v)
  {
  }

  /** Encoding and decoding, for all pairs of schemas that agree on their shared tags, all
      messages and all bytes behind the message: the decoder consumes exactly the message and
      gets its projection. */
  lemma {:induction false} MessageBack(types1: Schema, t1: nat, types2: Schema, t2: nat, pairs: set<(nat, nat)>,
                                       m: Msg, rest: seq<Byte>)
    requires Valid(types1) && Agree(types1, types2, pairs) && (t1, t2) in pairs
    requires EncMsg(types1, t1, m).Some? && |EncMsg(types1, t1, m).value| < W32
    ensures var b := EncMsg(types1, t1, m).value;
            DecMsg(types2, t2, b + rest) == Some(Decoded(Project(types1, t1, types2, t2, m), |b|))
    decreases m, 2
  {
    hide EncFields, DecFields, ProjectFields, Words, Unwords, LE, Val, Valid, ValidType, Agree;
    PairFits(types1, types2, pairs, (t1, t2));
    var body := EncFields(types1, types1[t1], 0, -1, m).value;
    FieldsBack(types1, t1, types2, t2, pairs, m, 0, -1, rest);
    TypeOf(types1, t1);
    RecordsFit(types1, types1[t1], 0, -1, m);
    MaxnFits(types1[t1], |types1|);
    RecordsAreWords(types1, types1[t1], 0, -1, m);
    UnwordsWords(body.records);
    HeaderBack(body, rest);
  }

  lemma PairFits(types1: Schema, types2: Schema, pairs: set<(nat, nat)>, p: (nat, nat))
    requires Agree(types1, types2, pairs) && p in pairs
    ensures p.0 < |types1| && p.1 < |types2|
  {
  }

  lemma TypeOf(types: Schema, t: nat)
    requires Valid(types) && t < |types|
    ensures ValidType(types[t], |types|)
  {
  }

  /** The count and the records in front of the data. */
  lemma HeaderBack(body: Body, rest: seq<Byte>)
    requires |body.records| < W16
    ensures var s := Assemble(body) + rest;
            var n := 2 * |body.records|;
            && |s| >= 2 + n && Val(s[..2]) == |body.records|
            && s[2..2 + n] == Words(body.records) && s[2 + n..] == body.data + rest
  {
    Fits2(|body.records|);
    hide LE, Val, Words;
    var h, w := LE(|body.records|, 2), Words(body.records);
    Assoc(h, w + body.data, rest);
    Assoc(w, body.data, rest);
    var s := h + (w + (body.data + rest));
    Cut(h, w + (body.data + rest));
    assert s[2..2 + |w|] == s[2..][..|w|] && s[2 + |w|..] == s[2..][|w|..];
    Cut(w, body.data + rest);
  }

  // ------------------------------------------------------------- the same schema

  /** A message as the decoder builds it: fields of the schema in the order of their tags, and no
      empty array. */
  ghost predicate Canonical(types: Schema, t: nat, m: Msg)
    decreases m, 1
  {
    && t < |types|
    && (forall i, j :: 0 <= i < j < |m.entries| ==> m.entries[i].tag < m.entries[j].tag)
    && (forall i :: 0 <= i < |m.entries| ==> CanonicalEntry(types, Find(types[t], m.entries[i].tag), m.entries[i].value))
  }

  ghost predicate CanonicalEntry(types: Schema, f: Option<Field>, v: Value)
    decreases v, 1
  {
    && f.Some? && !EmptyArray(v)
    && (v.MsgV? ==> f.value.ty.TStruct? && Canonical(types, f.value.ty.sub, v.m))
    && (v.MsgsV? ==> f.value.ty.TStruct? && forall i :: 0 <= i < |v.ms| ==> Canonical(types, f.value.ty.sub, v.ms[i]))
  }

  ghost function Diagonal(types: Schema): set<(nat, nat)> {
    set t | 0 <= t < |types| :: (t, t)
  }

  lemma AgreesWithItself(types: Schema)
    requires Valid(types)
    ensures Agree(types, types, Diagonal(types))
  {
    forall p, f, g | p in Diagonal(types) && f in types[p.0] && g in types[p.1] && f.tag == g.tag
      ensures SameField(f, g, Diagonal(types))
    {
      TypeOf(types, p.0);
      var i :| 0 <= i < |types[p.0]| && types[p.0][i] == f;
      var j :| 0 <= j < |types[p.0]| && types[p.0][j] == g;
      assert i == j;
    }
  }

  lemma {:induction false} LookupAt(m: Msg, tag: nat, i: nat, k: nat)
    requires i <= k <= |m.entries| && (forall j :: i <= j < k ==> m.entries[j].tag != tag)
    requires k < |m.entries| ==> m.entries[k].tag == tag
    ensures Lookup(m, tag, i) == if k < |m.entries| then Some(m.entries[k].value) else None
    decreases k - i
  {
    if i < k { LookupAt(m, tag, i + 1, k); }
  }

  lemma {:induction false} FindAt(fs: seq<Field>, n: nat, i: nat)
    requires ValidType(fs, n) && i < |fs|
    ensures Find(fs, fs[i].tag) == Some(fs[i])
  {
    if i > 0 {
      assert ValidType(fs[1..], n);
      FindAt(fs[1..], n, i - 1);
    }
  }

  /** A tag of the type that comes after field `i - 1` is that of field `i` or a later one. */
  lemma TagFrom(fs: seq<Field>, n: nat, i: nat, tag: nat)
    requires ValidType(fs, n) && i <= |fs| && Find(fs, tag).Some? && tag > Prev(fs, i)
    ensures i < |fs| && tag >= fs[i].tag
  {
    var j :| 0 <= j < |fs| && fs[j] == Find(fs, tag).value;
    assert j >= i;
  }

  lemma {:induction false} FieldsSelf(types: Schema, t: nat, m: Msg, i: nat, k: nat)
    requires Valid(types) && Canonical(types, t, m) && i <= |types[t]| && k <= |m.entries|
    requires forall j :: 0 <= j < k ==> m.entries[j].tag <= Prev(types[t], i)
    requires forall j :: k <= j < |m.entries| ==> m.entries[j].tag > Prev(types[t], i)
    ensures ProjectFields(types, t, types, t, m, i) == m.entries[k..]
    decreases m, 1, |types[t]| - i
  {
    hide Find, Lookup, ValidType, ProjectField;
    var fs := types[t];
    TypeOf(types, t);
    if k < |m.entries| { TagFrom(fs, |types|, i, m.entries[k].tag); }
    if i < |fs| {
      var f := fs[i];
      FindAt(fs, |types|, i);
      Step(types, t, i);
      if k < |m.entries| && m.entries[k].tag == f.tag {
        LookupAt(m, f.tag, 0, k);
        FieldsSelf(types, t, m, i + 1, k + 1);
        EntrySelf(types, f, m.entries[k].value);
        assert m.entries[k..] == [m.entries[k]] + m.entries[k + 1..];
      } else {
        LookupAt(m, f.tag, 0, |m.entries|);
        FieldsSelf(types, t, m, i + 1, k);
        NothingFirst(m.entries[k..]);
      }
    }
  }

  lemma Step(types: Schema, t: nat, i: nat)
    requires Valid(types) && t < |types| && i < |types[t]|
    ensures Prev(types[t], i) < types[t][i].tag == Prev(types[t], i + 1)
  {
  }

  lemma {:induction false} EntrySelf(types: Schema, f: Field, v: Value)
    requires Valid(types) && CanonicalEntry(types, Some(f), v)
    ensures ProjectField(types, f, types, Some(f), v) == [Entry(f.tag, v)]
    decreases v, 1
  {
    if v.MsgV? { MessageSelf(types, f.ty.sub, v.m); }
    if v.MsgsV? { MessagesSelf(types, f.ty.sub, v, 0); }
  }

  lemma {:induction false} MessagesSelf(types: Schema, t: nat, v: Value, i: nat)
    requires Valid(types) && v.MsgsV? && i <= |v.ms| && forall j :: 0 <= j < |v.ms| ==> Canonical(types, t, v.ms[j])
    ensures ProjectMsgs(types, t, types, t, v, i) == v.ms[i..]
    decreases v, 0, |v.ms| - i
  {
    if i < |v.ms| {
      MessageSelf(types, t, v.ms[i]);
      MessagesSelf(types, t, v, i + 1);
    }
  }

  lemma {:induction false} MessageSelf(types: Schema, t: nat, m: Msg)
    requires Valid(types) && Canonical(types, t, m)
    ensures Project(types, t, types, t, m) == m
    decreases m, 2
  {
    FieldsSelf(types, t, m, 0, 0);
    assert m.entries[0..] == m.entries;
  }

  /** With one schema, the message itself comes back. */
  lemma RoundTrip(types: Schema, t: nat, m: Msg, rest: seq<Byte>)
    requires Valid(types) && Canonical(types, t, m)
    requires EncMsg(types, t, m).Some? && |EncMsg(types, t, m).value| < W32
    ensures var b := EncMsg(types, t, m).value; DecMsg(types, t, b + rest) == Some(Decoded(m, |b|))
  {
    AgreesWithItself(types);
    MessageSelf(types, t, m);
    MessageBack(types, t, types, t, Diagonal(types), m, rest);
  }
}
