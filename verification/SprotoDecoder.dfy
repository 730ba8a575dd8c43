/** The loops of sproto_decode, the tag search and the field table that import_type builds
    (lualib/sproto/sproto.c), proved against SprotoLengths.dfy and SprotoCodec.dfy.
 */
module SprotoDecoder {
  import opened Basics
  import opened LittleEndian
  import opened SprotoCodec
  import opened SprotoRoundTrip
  import opened SprotoLengths

  /** struct sproto_type, without its name. */
  datatype SprotoType = SprotoType(f: seq<Field>, n: nat, base: int, maxn: nat)

  ghost predicate Ascending(fs: seq<Field>) {
    forall i, j :: 0 <= i < j < |fs| ==> fs[i].tag < fs[j].tag
  }

  ghost predicate Contiguous(fs: seq<Field>, base: int) {
    forall i :: 0 <= i < |fs| ==> fs[i].tag == base + i
  }

  /** What the import leaves: the fields in the order of their tags, the number of records they can
      need, and the first tag if the tags have no gap. */
  ghost predicate Imported(st: SprotoType) {
    && st.n == |st.f| && Ascending(st.f) && st.maxn == Slots(st.f, 0)
    && (st.base >= 0 ==> Contiguous(st.f, st.base))
    && (st.base < 0 ==> st.n > 0 && !Contiguous(st.f, st.f[0].tag))
  }

  lemma {:induction false} Spread(fs: seq<Field>, k: nat)
    requires Ascending(fs) && k < |fs|
    ensures fs[k].tag >= fs[0].tag + k
    ensures fs[k].tag == fs[0].tag + k ==> Contiguous(fs[..k + 1], fs[0].tag)
  {
    if k > 0 {
      Spread(fs, k - 1);
      assert forall i :: 0 <= i < k ==> fs[..k + 1][i] == fs[..k][i];
    }
  }

  /** The end of import_type: a type is refused when its tags do not ascend. */
  method ImportType(fields: seq<Field>) returns (r: Option<SprotoType>)
    ensures r.Some? <==> Ascending(fields)
    ensures r.Some? ==> r.value.f == fields && Imported(r.value)
  {
    var n := |fields|;
    if n == 0 {
      return Some(SprotoType([], 0, 0, 0));
    }
    var maxn: nat, last: int, i: nat := n, -1, 0;
    while i < n
      invariant 0 <= i <= n && last == Prev(fields, i)
      invariant forall j, k :: 0 <= j < k < i ==> fields[j].tag < fields[k].tag
      invariant maxn + Slots(fields, i) == Slots(fields, 0) + (n - i)
    {
      var tag := fields[i].tag;
      if tag <= last {
        assert i > 0 && fields[i - 1].tag >= fields[i].tag;
        return None;
      }
      if tag > last + 1 {
        maxn := maxn + 1;
      }
      last := tag;
      i := i + 1;
    }
    var base: int := fields[0].tag;
    Spread(fields, n - 1);
    assert fields[..n] == fields;
    if fields[n - 1].tag - base + 1 != n {
      assert !Contiguous(fields, base) by { assert fields[n - 1].tag != base + (n - 1); }
      base := -1;
    }
    r := Some(SprotoType(fields, n, base, maxn));
  }

  lemma {:induction false} FindIs(fs: seq<Field>, tag: int, i: nat)
    requires Ascending(fs) && i < |fs| && fs[i].tag == tag
    ensures Find(fs, tag) == Some(fs[i])
  {
    if i > 0 {
      assert Ascending(fs[1..]);
      FindIs(fs[1..], tag, i - 1);
    }
  }

  lemma FindNone(fs: seq<Field>, tag: int)
    requires forall i :: 0 <= i < |fs| ==> fs[i].tag != tag
    ensures Find(fs, tag) == None
  {
  }

  /** findtag: a direct index when the tags have no gap, otherwise binary search. It agrees with
      linear search. */
  method FindTag(st: SprotoType, tag: int) returns (r: Option<Field>)
    requires Imported(st)
    ensures r == Find(st.f, tag)
  {
    hide Find;
    if st.base >= 0 {
      var k := tag - st.base;
      if k < 0 || k >= st.n {
        FindNone(st.f, tag);
        return None;
      }
      FindIs(st.f, tag, k);
      return Some(st.f[k]);
    }
    var begin, end := 0, st.n;
    while begin < end
      invariant 0 <= begin <= end <= st.n
      invariant forall i :: 0 <= i < begin ==> st.f[i].tag < tag
      invariant forall i :: end <= i < st.n ==> tag < st.f[i].tag
    {
      var mid := (begin + end) / 2;
      var t := st.f[mid].tag;
      if t == tag {
        FindIs(st.f, tag, mid);
        return Some(st.f[mid]);
      }
      if tag > t {
        begin := mid + 1;
      } else {
        end := mid;
      }
    }
    FindNone(st.f, tag);
    return None;
  }

  // ------------------------------------------------------------------- decoding

  function SchemaOf(types: seq<SprotoType>): Schema {
    seq(|types|, t requires 0 <= t < |types| => types[t].f)
  }

  ghost predicate AllImported(types: seq<SprotoType>) {
    forall t :: 0 <= t < |types| ==> Imported(types[t])
  }

  lemma {:induction false} WordAt(s: seq<Byte>, i: nat)
    requires |s| % 2 == 0 && 2 * i < |s|
    ensures Unwords(s)[i] == Val(s[2 * i..2 * i + 2])
  {
    hide Val;
    if i > 0 {
      WordAt(s[2..], i - 1);
      SliceOfSlice(s, 2, |s|, 2 * (i - 1), 2 * i);
      assert s[2..] == s[2..|s|] && Unwords(s)[i] == Unwords(s[2..])[i - 1];
    }
  }

  lemma SliceOfSlice<T>(s: seq<T>, lo: nat, hi: nat, i: nat, j: nat)
    requires lo <= hi <= |s| && i <= j <= hi - lo
    ensures s[lo..hi][i..j] == s[lo + i..lo + j]
  {
    var a, b := s[lo..hi][i..j], s[lo + i..lo + j];
    assert forall k :: 0 <= k < |a| ==> a[k] == b[k];
    assert a == b;
  }

  /** What has been found so far in front of what is still to come. */
  ghost function After(entries: seq<Entry>, r: Option<Fields>): Option<Fields> {
    match r case None => None case Some(f) => Some(Fields(entries + f.entries, f.rest))
  }

  lemma AfterNothing(r: Option<Fields>)
    ensures After([], r) == r
  {
    if r.Some? { NothingFirst(r.value.entries); }
  }

  lemma AfterFound(entries: seq<Entry>, tag: nat, got: Got, r: Option<Fields>)
    ensures After(entries, Found(tag, got, r)) == After(if got.Value? then entries + [Entry(tag, got.v)] else entries, r)
  {
    if r.Some? {
      if got.Value? { Assoc(entries, [Entry(tag, got.v)], r.value.entries); } else { NothingFirst(r.value.entries); }
    }
  }

  /** A record of the loop: what it makes of what comes after it. */
  lemma SkipStep(types: Schema, fs: seq<Field>, ws: seq<nat>, i: nat, tag: int, data: seq<Byte>, astray: Got)
    requires i < |ws| && ws[i] % 2 == 1
    ensures SrcFields(types, fs, ws[i..], tag, data, astray) == SrcFields(types, fs, ws[i + 1..], tag + 1 + ws[i] / 2, data, astray)
  {
    assert ws[i..][0] == ws[i] && ws[i..][1..] == ws[i + 1..];
  }

  lemma InlineStep(types: Schema, fs: seq<Field>, ws: seq<nat>, i: nat, tag: int, data: seq<Byte>, astray: Got)
    requires i < |ws| && ws[i] % 2 == 0 && ws[i] > 0
    ensures var got := GotInline(fs, tag + 1, ws[i] / 2 - 1);
            SrcFields(types, fs, ws[i..], tag, data, astray) ==
            if got.Wrong? then None else Found(tag + 1, got, SrcFields(types, fs, ws[i + 1..], tag + 1, data, astray))
  {
    hide DecInline, Find;
    assert ws[i..][0] == ws[i] && ws[i..][1..] == ws[i + 1..];
  }

  lemma BlockStep(types: Schema, fs: seq<Field>, ws: seq<nat>, i: nat, tag: int, data: seq<Byte>, astray: Got)
    requires i < |ws| && ws[i] == 0
    ensures |data| < 4 || |data| < Advance(Val(data[..4])) ==> SrcFields(types, fs, ws[i..], tag, data, astray) == None
    ensures |data| >= 4 && |data| >= Advance(Val(data[..4])) ==>
      var n := Val(data[..4]);
      && (Runs(n) || |data| - 4 >= n)
      && var got := SrcFound(types, fs, tag + 1, n, data, astray);
      SrcFields(types, fs, ws[i..], tag, data, astray) ==
      if got.Wrong? then None else Found(tag + 1, got, SrcFields(types, fs, ws[i + 1..], tag + 1, data[Advance(n)..], astray))
  {
    hide SrcFound, Find;
    assert ws[i..][0] == ws[i] && ws[i..][1..] == ws[i + 1..];
  }

  lemma Slices(s: seq<Byte>, pos: nat, n: nat)
    requires pos + n <= |s|
    ensures s[pos..][..n] == s[pos..pos + n] && s[pos..][n..] == s[pos + n..]
  {
  }

  /** sproto_decode: the bytes used and the fields handed to the callback, in order. */
  method SprotoDecode(types: seq<SprotoType>, t: nat, s: seq<Byte>, astray: Got) returns (r: Option<Decoded>)
    requires AllImported(types) && t < |types|
    ensures r == SrcMsg(SchemaOf(types), t, s, astray)
    decreases |s|, 3
  {
    hide SrcFields, Unwords, Val, Imported, Find, Found, DecInline, SrcFound, Advance, Runs;
    ghost var schema := SchemaOf(types);
    ghost var fs := types[t].f;
    if |s| < 2 {
      return None;
    }
    var fn := Val(s[..2]);
    if |s| - 2 < 2 * fn {
      return None;
    }
    ghost var head := s[2..2 + 2 * fn];
    ghost var ws := Unwords(head);
    var pos := 2 + 2 * fn;
    var size := |s| - pos;
    var entries: seq<Entry> := [];
    var tag: int := -1;
    assert ws[0..] == ws;
    AfterNothing(SrcFields(schema, fs, ws, -1, s[pos..], astray));
    var i := 0;
    while i < fn
      invariant 0 <= i <= fn && pos + size == |s| && size >= 0 && tag >= -1 && pos >= 2 + 2 * fn
      invariant SrcFields(schema, fs, ws, -1, s[2 + 2 * fn..], astray) == After(entries, SrcFields(schema, fs, ws[i..], tag, s[pos..], astray))
    {
      WordAt(head, i);
      SliceOfSlice(s, 2, 2 + 2 * fn, 2 * i, 2 * i + 2);
      var w: int := Val(s[2 + 2 * i..4 + 2 * i]);
      if w % 2 == 1 {
        SkipStep(schema, fs, ws, i, tag, s[pos..], astray);
        tag := tag + 1 + w / 2;
      } else {
        var value: int := w / 2 - 1;
        var current := pos;
        if value < 0 {
          BlockStep(schema, fs, ws, i, tag, s[pos..], astray);
          if size < 4 {
            return None;
          }
          Slices(s, pos, 4);
          var sz := Val(s[pos..pos + 4]);
          if size < Advance(sz) {
            return None;
          }
          Slices(s, pos, Advance(sz));
          pos := pos + Advance(sz);
          size := size - Advance(sz);
        } else {
          InlineStep(schema, fs, ws, i, tag, s[pos..], astray);
        }
        tag := tag + 1;
        var got := DecodeField(types, t, tag, value, s[current..], astray);
        if got.Wrong? {
          return None;
        }
        AfterFound(entries, tag, got, SrcFields(schema, fs, ws[i + 1..], tag, s[pos..], astray));
        if got.Value? {
          entries := entries + [Entry(tag, got.v)];
        }
      }
      i := i + 1;
    }
    assert ws[i..] == [];
    NoMoreFields(schema, fs, tag, s[pos..], astray);
    r := Some(Decoded(Msg(entries), |s| - size));
    assert entries + [] == entries;
  }

  lemma NoMoreFields(types: Schema, fs: seq<Field>, tag: int, data: seq<Byte>, astray: Got)
    ensures SrcFields(types, fs, [], tag, data, astray) == Some(Fields([], data))
  {
  }

  /** A value for a tag: nothing when the type has no such field. A block starts with its length at
      the start of `current`. */
  method DecodeField(types: seq<SprotoType>, t: nat, tag: nat, value: int, current: seq<Byte>, astray: Got) returns (got: Got)
    requires AllImported(types) && t < |types|
    requires value < 0 ==> |current| >= 4 && (Runs(Val(current[..4])) || |current| - 4 >= Val(current[..4]))
    ensures value < 0 ==> got == SrcFound(SchemaOf(types), types[t].f, tag, Val(current[..4]), current, astray)
    ensures value >= 0 ==> got == GotInline(types[t].f, tag, value)
    decreases |current|, 2
  {
    hide Find, SrcBlock, Val;
    var f := FindTag(types[t], tag);
    if f.None? {
      return Nothing;
    }
    if value < 0 {
      var sz := Val(current[..4]);
      if Runs(sz) {
        got := Runaway(f.value, sz, current, astray);
      } else if f.value.many {
        got := DecodeArray(types, f.value, current[4..4 + sz], astray);
      } else {
        got := DecodeBlock(types, f.value, current[4..4 + sz], astray);
      }
    } else if f.value.many || (!f.value.ty.TInteger? && !f.value.ty.TBoolean?) {
      got := Wrong;
    } else if f.value.ty.TInteger? {
      got := Value(IntV(value));
    } else {
      got := Value(BoolV(value != 0));
    }
  }

  /** A number is handed over as a 64-bit word. */
  method DecodeBlock(types: seq<SprotoType>, f: Field, b: seq<Byte>, astray: Got) returns (got: Got)
    requires AllImported(types) && !f.many
    ensures got == SrcBlock(SchemaOf(types), f, b, astray)
    decreases |b|, 4
  {
    match f.ty
    case TInteger =>
      if |b| == 4 {
        ValFits(b);
        ExpandKeeps(Val(b));
        got := Value(IntV(Signed64(Expand64(Val(b)))));
      } else if |b| != 8 {
        got := Wrong;
      } else {
        LowHigh(b);
        var low, high := Val(b[..4]), Val(b[4..]);
        got := Value(IntV(Signed64(low + high * W32)));
      }
    case TString => got := Value(StrV(b));
    case TStruct(t) =>
      if t >= |types| {
        return Wrong;
      }
      var d := SprotoDecode(types, t, b, astray);
      got := if d.None? || d.value.used != |b| then Wrong else Value(MsgV(d.value.m));
    case TBoolean => got := Wrong;
  }

  lemma ValFits(s: seq<Byte>)
    requires |s| == 4
    ensures Val(s) < W32
  {
    ValBound(s);
    Powers();
  }

  lemma LowHigh(b: seq<Byte>)
    requires |b| == 8
    ensures Val(b) == Val(b[..4]) + Val(b[4..]) * W32
  {
    assert b[..4] == [b[0], b[1], b[2], b[3]];
    assert b[1..][1..][1..][1..] == b[4..];
    assert Val(b) == b[0] + 256 * Val(b[1..]);
    assert Val(b[1..]) == b[1] + 256 * Val(b[1..][1..]);
    assert Val(b[1..][1..]) == b[2] + 256 * Val(b[1..][1..][1..]);
    assert Val(b[1..][1..][1..]) == b[3] + 256 * Val(b[4..]);
    FourBytes(b[0], b[1], b[2], b[3]);
  }

  method DecodeArray(types: seq<SprotoType>, f: Field, b: seq<Byte>, astray: Got) returns (got: Got)
    requires AllImported(types) && f.many
    ensures got == SrcBlock(SchemaOf(types), f, b, astray)
    decreases |b|, 4
  {
    match f.ty
    case TInteger => got := DecodeIntegers(b);
    case TBoolean =>
      var bs: seq<bool> := [];
      for i := 0 to |b|
        invariant |bs| == i && forall k :: 0 <= k < i ==> bs[k] == (b[k] != 0)
      {
        bs := bs + [b[i] != 0];
      }
      assert bs == seq(|b|, i requires 0 <= i < |b| => b[i] != 0);
      got := if b == [] then Nothing else Value(BoolsV(bs));
    case TString =>
      var ss := DecodeStrings(b);
      got := if ss.None? then Wrong else if ss.value == [] then Nothing else Value(StrsV(ss.value));
    case TStruct(t) =>
      if t >= |types| {
        return Wrong;
      }
      var ms := DecodeMessages(types, t, b, astray);
      got := if ms.None? then Wrong else if ms.value == [] then Nothing else Value(MsgsV(ms.value));
  }

  lemma {:induction false} UnintsAt(b: seq<Byte>, w: nat, i: nat)
    requires (w == 4 || w == 8) && |b| % w == 0 && w * i < |b|
    ensures |Unints(b, w)| == |b| / w
    ensures w * i + w <= |b|
    ensures Unints(b, w)[i] == if w == 4 then Signed32(Val(b[4 * i..4 * i + 4])) else Signed64(Val(b[8 * i..8 * i + 8]))
    decreases i
  {
    hide Val, Signed32, Signed64;
    UnintsLength(b, w);
    if i > 0 {
      assert b[w..] == b[w..|b|];
      UnintsLength(b[w..], w);
      UnintsAt(b[w..], w, i - 1);
      if w == 4 {
        SliceOfSlice(b, 4, |b|, 4 * (i - 1), 4 * i);
      } else {
        SliceOfSlice(b, 8, |b|, 8 * (i - 1), 8 * i);
      }
    }
  }

  lemma {:induction false} UnintsLength(b: seq<Byte>, w: nat)
    requires (w == 4 || w == 8) && |b| % w == 0
    ensures |Unints(b, w)| == |b| / w
    decreases |b|
  {
    hide Val, Signed32, Signed64;
    if |b| >= w { UnintsLength(b[w..], w); }
  }

  method DecodeIntegers(b: seq<Byte>) returns (got: Got)
    ensures got == DecInts(b)
  {
    hide Val, Signed32, Signed64, Expand64, Unints;
    if |b| < 1 {
      return Wrong;
    }
    var len := b[0];
    var s := b[1..];
    var ns: seq<int> := [];
    if len == 4 {
      if |s| % 4 != 0 {
        return Wrong;
      }
      UnintsLength(s, 4);
      var i := 0;
      while i < |s| / 4
        invariant 0 <= i <= |s| / 4 && ns == Unints(s, 4)[..i]
      {
        UnintsAt(s, 4, i);
        ValFits(s[4 * i..4 * i + 4]);
        ExpandKeeps(Val(s[4 * i..4 * i + 4]));
        ns := ns + [Signed64(Expand64(Val(s[4 * i..4 * i + 4])))];
        i := i + 1;
      }
    } else if len == 8 {
      if |s| % 8 != 0 {
        return Wrong;
      }
      UnintsLength(s, 8);
      var i := 0;
      while i < |s| / 8
        invariant 0 <= i <= |s| / 8 && ns == Unints(s, 8)[..i]
      {
        UnintsAt(s, 8, i);
        LowHigh(s[8 * i..8 * i + 8]);
        assert s[8 * i..8 * i + 8][..4] == s[8 * i..8 * i + 4] && s[8 * i..8 * i + 8][4..] == s[8 * i + 4..8 * i + 8];
        var low, high := Val(s[8 * i..8 * i + 4]), Val(s[8 * i + 4..8 * i + 8]);
        ns := ns + [Signed64(low + high * W32)];
        i := i + 1;
      }
    } else {
      return Wrong;
    }
    assert ns == Unints(s, len);
    got := if |s| == 0 then Nothing else Value(IntsV(ns));
  }

  ghost function Front<T>(a: seq<T>, r: Option<seq<T>>): Option<seq<T>> {
    match r case None => None case Some(b) => Some(a + b)
  }

  lemma FrontNothing<T>(r: Option<seq<T>>)
    ensures Front([], r) == r
  {
    if r.Some? { NothingFirst(r.value); }
  }

  lemma FrontNext<T>(a: seq<T>, x: T, r: Option<seq<T>>)
    ensures Front(a, Front([x], r)) == Front(a + [x], r)
  {
    if r.Some? { Assoc(a, [x], r.value); }
  }

  lemma StrsStep(b: seq<Byte>)
    requires b != []
    ensures DecStrs(b) == if |b| < 4 || |b| - 4 < Val(b[..4]) then None
                          else Front([b[4..4 + Val(b[..4])]], DecStrs(b[4 + Val(b[..4])..]))
  {
    hide Val;
  }

  method DecodeStrings(b: seq<Byte>) returns (r: Option<seq<seq<Byte>>>)
    ensures r == DecStrs(b)
  {
    hide Val, DecStrs, Front;
    var ss: seq<seq<Byte>> := [];
    var rest := b;
    FrontNothing(DecStrs(b));
    while |rest| > 0
      invariant DecStrs(b) == Front(ss, DecStrs(rest))
      decreases |rest|
    {
      StrsStep(rest);
      StrsError(ss);
      if |rest| < 4 {
        return None;
      }
      var n := Val(rest[..4]);
      if n > |rest| - 4 {
        return None;
      }
      FrontNext(ss, rest[4..4 + n], DecStrs(rest[4 + n..]));
      ss := ss + [rest[4..4 + n]];
      rest := rest[4 + n..];
    }
    StrsEnd(ss);
    r := Some(ss);
  }

  lemma StrsError(ss: seq<seq<Byte>>)
    ensures Front(ss, None) == None
  {
  }

  lemma StrsEnd(ss: seq<seq<Byte>>)
    ensures DecStrs([]) == Some([]) && Front(ss, DecStrs([])) == Some(ss)
  {
    assert ss + [] == ss;
  }

  lemma MsgsStep(types: Schema, t: nat, b: seq<Byte>, astray: Got)
    requires b != [] && t < |types|
    ensures SrcMsgs(types, t, b, astray) ==
            if |b| < 4 || |b| - 4 < Val(b[..4]) then None
            else
              var d := SrcMsg(types, t, b[4..4 + Val(b[..4])], astray);
              if d.None? || d.value.used != Val(b[..4]) then None
              else Front([d.value.m], SrcMsgs(types, t, b[4 + Val(b[..4])..], astray))
  {
    hide SrcMsg;
  }

  method DecodeMessages(types: seq<SprotoType>, t: nat, b: seq<Byte>, astray: Got) returns (r: Option<seq<Msg>>)
    requires AllImported(types) && t < |types|
    ensures r == SrcMsgs(SchemaOf(types), t, b, astray)
    decreases |b|, 3
  {
    hide Val, SrcMsgs, SrcMsg, Front;
    var ms: seq<Msg> := [];
    var rest := b;
    ghost var schema := SchemaOf(types);
    FrontNothing(SrcMsgs(schema, t, b, astray));
    while |rest| > 0
      invariant |rest| <= |b| && SrcMsgs(schema, t, b, astray) == Front(ms, SrcMsgs(schema, t, rest, astray))
      decreases |rest|
    {
      MsgsStep(schema, t, rest, astray);
      MsgsEnd(schema, t, ms, astray);
      if |rest| < 4 {
        return None;
      }
      var n := Val(rest[..4]);
      if n > |rest| - 4 {
        return None;
      }
      var d := SprotoDecode(types, t, rest[4..4 + n], astray);
      if d.None? || d.value.used != n {
        return None;
      }
      FrontNext(ms, d.value.m, SrcMsgs(schema, t, rest[4 + n..], astray));
      ms := ms + [d.value.m];
      rest := rest[4 + n..];
    }
    MsgsEnd(schema, t, ms, astray);
    r := Some(ms);
  }

  lemma MsgsEnd(types: Schema, t: nat, ms: seq<Msg>, astray: Got)
    requires t < |types|
    ensures SrcMsgs(types, t, [], astray) == Some([]) && Front(ms, Some([])) == Some(ms) && Front(ms, None) == None
  {
    assert ms + [] == ms;
  }
}
