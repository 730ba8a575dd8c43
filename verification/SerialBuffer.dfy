/** The loops of the serialiser (src/lserial.c): values are pushed into a list of chunks of 128
    bytes that is flattened at the end, and popped from a block of bytes. Proved against
    Serial.dfy.
 */
module SerialBuffer {
  import opened Basics
  import opened LittleEndian
  import opened Serial

  const DATA_SIZE: nat := 128

  class BufferNode {
    const data: array<Byte>
    var next: BufferNode?

    constructor ()
      ensures data.Length == DATA_SIZE && next == null && fresh(data)
    {
      data := new Byte[DATA_SIZE](_ => 0);
      next := null;
    }
  }

  class Buffer {
    var head: BufferNode
    var cur: BufferNode
    var size: nat
    var offset: nat
    /** The chunks, and the bytes pushed so far. */
    ghost var nodes: seq<BufferNode>
    ghost var contents: seq<Byte>
    ghost var repr: set<object>

    ghost predicate Linked()
      reads this, nodes
    {
      && |nodes| > 0 && head == nodes[0] && cur == nodes[|nodes| - 1] && cur.next == null
      && (forall i :: 0 <= i < |nodes| - 1 ==> nodes[i].next == nodes[i + 1])
      && (forall i :: 0 <= i < |nodes| ==> nodes[i].data.Length == DATA_SIZE)
      && (forall i, j :: 0 <= i < j < |nodes| ==> nodes[i] != nodes[j] && nodes[i].data != nodes[j].data)
    }

    ghost predicate Valid()
      reads this, repr
    {
      && this in repr && (forall i :: 0 <= i < |nodes| ==> nodes[i] in repr && nodes[i].data in repr)
      && Linked()
      && offset <= DATA_SIZE && |contents| == size == DATA_SIZE * (|nodes| - 1) + offset
      && (forall i :: 0 <= i < |nodes| - 1 ==> nodes[i].data[..] == contents[DATA_SIZE * i..DATA_SIZE * i + DATA_SIZE])
      && cur.data[..offset] == contents[DATA_SIZE * (|nodes| - 1)..]
    }

    constructor ()
      ensures Valid() && contents == [] && fresh(repr)
    {
      var node := new BufferNode();
      head, cur, size, offset := node, node, 0, 0;
      nodes, contents, repr := [node], [], {this, node, node.data};
    }

    /** memcpy into the current chunk. */
    method CopyIn(bytes: seq<Byte>)
      requires Valid() && offset + |bytes| <= DATA_SIZE
      modifies repr
      ensures Valid() && repr == old(repr)
      ensures contents == old(contents) + bytes && offset == old(offset) + |bytes|
    {
      var data := cur.data;
      ghost var before := contents;
      forall k | 0 <= k < |bytes| {
        data[offset + k] := bytes[k];
      }
      assert data[..offset] == before[DATA_SIZE * (|nodes| - 1)..];
      assert data[offset..offset + |bytes|] == bytes;
      assert data[..offset + |bytes|] == data[..offset] + data[offset..offset + |bytes|];
      offset := offset + |bytes|;
      size := size + |bytes|;
      contents := before + bytes;
      LongerContents(before, bytes, DATA_SIZE * (|nodes| - 1));
      forall i | 0 <= i < |nodes| - 1
        ensures nodes[i].data[..] == contents[DATA_SIZE * i..DATA_SIZE * i + DATA_SIZE]
      {
        SliceOfPrefix(before, bytes, DATA_SIZE * i, DATA_SIZE * i + DATA_SIZE);
      }
    }

    /** A new chunk behind a full one. */
    method NewNode()
      requires Valid() && offset == DATA_SIZE
      modifies repr
      ensures Valid() && fresh(repr - old(repr)) && repr >= old(repr)
      ensures contents == old(contents) && offset == 0
    {
      var node := new BufferNode();
      ghost var last := |nodes| - 1;
      assert cur.data[..] == contents[DATA_SIZE * last..];
      assert contents[DATA_SIZE * last..] == contents[DATA_SIZE * last..DATA_SIZE * last + DATA_SIZE];
      cur.next := node;
      cur := node;
      offset := 0;
      nodes := nodes + [node];
      repr := repr + {node, node.data};
      assert contents[DATA_SIZE * (|nodes| - 1)..] == [];
    }

    /** buffer_push: what does not fit the current chunk goes on in new ones. */
    method Push(data: seq<Byte>)
      requires Valid()
      modifies repr
      ensures Valid() && fresh(repr - old(repr)) && repr >= old(repr)
      ensures contents == old(contents) + data
    {
      var rest := data;
      if offset == DATA_SIZE {
        NewNode();
      }
      while offset > DATA_SIZE - |rest|
        invariant Valid() && fresh(repr - old(repr)) && repr >= old(repr) && offset < DATA_SIZE
        invariant contents + rest == old(contents) + data
        decreases |rest|
      {
        ghost var c := contents;
        var n := DATA_SIZE - offset;
        CopyIn(rest[..n]);
        NewNode();
        assert rest == rest[..n] + rest[n..];
        Assoc(c, rest[..n], rest[n..]);
        rest := rest[n..];
      }
      CopyIn(rest);
    }

    /** The copying of lpack_ret: the chunks one after another. */
    method Flatten() returns (data: array<Byte>)
      requires Valid()
      ensures fresh(data) && data[..] == contents
    {
      data := new Byte[size](_ => 0);
      var node := head;
      var len, p := size, 0;
      ghost var i := 0;
      while len > 0
        invariant 0 <= i < |nodes| || len == 0
        invariant len > 0 ==> node == nodes[i] && p == DATA_SIZE * i
        invariant p + len == size && p <= size
        invariant data[..p] == contents[..p]
        decreases len
      {
        if len >= DATA_SIZE {
          FullChunk(i);
          CopyOut(data, p, node.data, DATA_SIZE, contents);
          p := p + DATA_SIZE;
          len := len - DATA_SIZE;
          if len > 0 {
            MoreChunks(i);
            node := node.next;
            i := i + 1;
          }
        } else {
          LastChunk(i, len);
          CopyOut(data, p, node.data, len, contents);
          p := p + len;
          len := 0;
        }
      }
      assert data[..] == data[..p];
      assert contents[..p] == contents;
    }

    lemma FullChunk(i: nat)
      requires Valid() && i < |nodes| && size - DATA_SIZE * i >= DATA_SIZE
      ensures nodes[i].data[..DATA_SIZE] == contents[DATA_SIZE * i..DATA_SIZE * i + DATA_SIZE]
    {
      assert nodes[i].data[..DATA_SIZE] == nodes[i].data[..];
      if i == |nodes| - 1 {
        assert offset == DATA_SIZE;
        assert contents[DATA_SIZE * i..] == contents[DATA_SIZE * i..DATA_SIZE * i + DATA_SIZE];
      }
    }

    lemma MoreChunks(i: nat)
      requires Valid() && i < |nodes| && size > DATA_SIZE * i + DATA_SIZE
      ensures i + 1 < |nodes| && nodes[i].next == nodes[i + 1]
    {
    }

    lemma LastChunk(i: nat, len: nat)
      requires Valid() && i < |nodes| && len == size - DATA_SIZE * i && 0 < len < DATA_SIZE
      ensures nodes[i].data[..len] == contents[DATA_SIZE * i..DATA_SIZE * i + len]
    {
      assert i == |nodes| - 1 && offset == len;
    }

    method PushNil()
      requires Valid()
      modifies repr
      ensures Valid() && fresh(repr - old(repr)) && repr >= old(repr) && contents == old(contents) + [0]
    {
      Push([0]);
    }

    /** A type and eight bytes. */
    method PushWord(tag: Byte, n: nat)
      requires Valid()
      modifies repr
      ensures Valid() && fresh(repr - old(repr)) && repr >= old(repr)
      ensures contents == old(contents) + ([tag] + LE(n, 8))
    {
      ghost var c := contents;
      Push([tag]);
      Push(LE(n, 8));
      Assoc(c, [tag], LE(n, 8));
    }

    method PushString(s: seq<Byte>)
      requires Valid()
      modifies repr
      ensures Valid() && fresh(repr - old(repr)) && repr >= old(repr)
      ensures contents == old(contents) + ([4] + (LE(|s|, 4) + s))
    {
      ghost var c := contents;
      Push([4]);
      Push(LE(|s|, 4));
      Push(s);
      Assoc(c + [4], LE(|s|, 4), s);
      Assoc(c, [4], LE(|s|, 4) + s);
    }

    /** lpack_one; the result is false where the source raises the error about the depth. */
    method PackOne(v: Value, depth: nat) returns (ok: bool)
      requires Valid()
      modifies repr
      ensures Valid() && fresh(repr - old(repr)) && repr >= old(repr)
      ensures ok <==> Pack(v, depth).Some?
      ensures ok ==> contents == old(contents) + Pack(v, depth).value
      decreases v, 3
    {
      hide Valid, LE, PackArray, PackHash;
      if depth > MAX_DEPTH {
        return false;
      }
      ok := true;
      match v
      case Nil => PushNil();
      case Bool(b) => Push([1, if b then 1 else 0]);
      case Integer(n) => PushWord(2, n % W64);
      case Number(bits) => PushWord(3, bits);
      case Str(s) => PushString(s);
      case Pointer(p) => PushWord(5, p);
      case Table(border, _) => ok := PackTable(v, depth);
    }

    /** buffer_push_table, for a table without a __pairs method. */
    method PackTable(t: Value, depth: nat) returns (ok: bool)
      requires Valid() && t.Table? && depth <= MAX_DEPTH
      modifies repr
      ensures Valid() && fresh(repr - old(repr)) && repr >= old(repr)
      ensures ok <==> Pack(t, depth).Some?
      ensures ok ==> contents == old(contents) + Pack(t, depth).value
      decreases t, 2
    {
      hide Valid, LE, PackArray, PackHash;
      ghost var c := contents;
      PushWord(6, t.border);
      ok := PackItems(t, depth + 1);
      if !ok {
        return;
      }
      ok := PackPairs(t, depth + 1);
      if !ok {
        return;
      }
      PushNil();
      Regroup(c, [6] + LE(t.border, 8), PackArray(t, 1, depth + 1).value, PackHash(t, 0, depth + 1).value, [0]);
    }

    /** buffer_push_array, after the size. */
    method PackItems(t: Value, depth: nat) returns (ok: bool)
      requires Valid() && t.Table?
      modifies repr
      ensures Valid() && fresh(repr - old(repr)) && repr >= old(repr)
      ensures ok <==> PackArray(t, 1, depth).Some?
      ensures ok ==> contents == old(contents) + PackArray(t, 1, depth).value
      decreases t, 1
    {
      hide Valid, Pack, PackArray, Onto;
      var i := 1;
      OntoStarts(contents, PackArray(t, 1, depth));
      while i <= t.border
        invariant 1 <= i <= t.border + 1 && Valid() && fresh(repr - old(repr)) && repr >= old(repr)
        invariant Onto(old(contents), PackArray(t, 1, depth)) == Onto(contents, PackArray(t, i, depth))
      {
        ghost var c := contents;
        ArrayStep(t, i, depth, c);
        var item := Get(t, i, 0);
        if item == Nil {
          if depth > MAX_DEPTH {
            return false;
          }
          PushNil();
        } else {
          ok := PackOne(item, depth);
          if !ok {
            return;
          }
        }
        i := i + 1;
      }
      ArrayEnds(t, depth, contents);
      OntoEnds(old(contents), PackArray(t, 1, depth), contents);
      ok := true;
    }

    /** buffer_push_hash, before the closing nil. */
    method PackPairs(t: Value, depth: nat) returns (ok: bool)
      requires Valid() && t.Table?
      modifies repr
      ensures Valid() && fresh(repr - old(repr)) && repr >= old(repr)
      ensures ok <==> PackHash(t, 0, depth).Some?
      ensures ok ==> contents == old(contents) + PackHash(t, 0, depth).value
      decreases t, 1
    {
      hide Valid, Pack, PackHash, Onto;
      var k := 0;
      OntoStarts(contents, PackHash(t, 0, depth));
      while k < |t.entries|
        invariant 0 <= k <= |t.entries| && Valid() && fresh(repr - old(repr)) && repr >= old(repr)
        invariant Onto(old(contents), PackHash(t, 0, depth)) == Onto(contents, PackHash(t, k, depth))
      {
        ghost var c := contents;
        HashStep(t, k, depth, c);
        if !InArray(t.entries[k].key, t.border) {
          ok := PackOne(t.entries[k].key, depth);
          if !ok {
            return;
          }
          ok := PackOne(t.entries[k].value, depth);
          if !ok {
            return;
          }
        }
        k := k + 1;
      }
      HashEnds(t, depth, contents);
      OntoEnds(old(contents), PackHash(t, 0, depth), contents);
      ok := true;
    }
  }

  /** Bytes behind what there is. */
  ghost function Onto(c: seq<Byte>, r: Option<seq<Byte>>): Option<seq<Byte>> {
    match r case None => None case Some(b) => Some(c + b)
  }

  lemma OntoStarts(c: seq<Byte>, r: Option<seq<Byte>>)
    ensures Onto(c, r).None? <==> r.None?
    ensures r.Some? ==> Onto(c, r) == Some(c + r.value)
  {
  }

  lemma OntoEnds(c: seq<Byte>, r: Option<seq<Byte>>, d: seq<Byte>)
    requires Onto(c, r) == Some(d)
    ensures r.Some? && d == c + r.value
  {
  }

  lemma ArrayStep(t: Value, i: nat, depth: nat, c: seq<Byte>)
    requires t.Table? && 1 <= i <= t.border
    ensures PackItem(t, i, depth).None? ==> Onto(c, PackArray(t, i, depth)) == None
    ensures PackItem(t, i, depth).Some? ==>
      Onto(c, PackArray(t, i, depth)) == Onto(c + PackItem(t, i, depth).value, PackArray(t, i + 1, depth))
  {
    hide Pack;
    if PackItem(t, i, depth).Some? && PackArray(t, i + 1, depth).Some? {
      Assoc(c, PackItem(t, i, depth).value, PackArray(t, i + 1, depth).value);
    }
  }

  lemma ArrayEnds(t: Value, depth: nat, c: seq<Byte>)
    requires t.Table?
    ensures Onto(c, PackArray(t, t.border + 1, depth)) == Some(c)
  {
    assert c + [] == c;
  }

  lemma HashStep(t: Value, k: nat, depth: nat, c: seq<Byte>)
    requires t.Table? && k < |t.entries|
    ensures var key, value := Pack(t.entries[k].key, depth), Pack(t.entries[k].value, depth);
            Onto(c, PackHash(t, k, depth)) ==
            if InArray(t.entries[k].key, t.border) then Onto(c, PackHash(t, k + 1, depth))
            else if key.None? || value.None? then None
            else Onto((c + key.value) + value.value, PackHash(t, k + 1, depth))
  {
    hide Pack;
    var key, value := Pack(t.entries[k].key, depth), Pack(t.entries[k].value, depth);
    if key.Some? && value.Some? && PackHash(t, k + 1, depth).Some? {
      Assoc(c, key.value, value.value + PackHash(t, k + 1, depth).value);
      Assoc(c + key.value, value.value, PackHash(t, k + 1, depth).value);
    }
  }

  lemma HashEnds(t: Value, depth: nat, c: seq<Byte>)
    requires t.Table?
    ensures Onto(c, PackHash(t, |t.entries|, depth)) == Some(c)
  {
    assert c + [] == c;
  }

  lemma Regroup(c: seq<Byte>, a: seq<Byte>, b: seq<Byte>, d: seq<Byte>, e: seq<Byte>)
    ensures (((c + a) + b) + d) + e == c + (a + (b + (d + e)))
  {
    Assoc((c + a) + b, d, e);
    Assoc(c + a, b, d + e);
    Assoc(c, a, b + (d + e));
  }

  lemma LongerContents(before: seq<Byte>, bytes: seq<Byte>, from: nat)
    requires from <= |before|
    ensures (before + bytes)[from..] == before[from..] + bytes
  {
  }

  lemma SliceOfPrefix(before: seq<Byte>, bytes: seq<Byte>, lo: nat, hi: nat)
    requires lo <= hi <= |before|
    ensures (before + bytes)[lo..hi] == before[lo..hi]
  {
  }

  method CopyOut(data: array<Byte>, p: nat, from: array<Byte>, n: nat, ghost contents: seq<Byte>)
    requires data != from && p + n <= data.Length && n <= from.Length && p + n <= |contents|
    requires data[..p] == contents[..p] && from[..n] == contents[p..p + n]
    modifies data
    ensures data[..p + n] == contents[..p + n]
  {
    ghost var b := from[..n];
    forall k | 0 <= k < n {
      data[p + k] := from[k];
    }
    assert data[p..p + n] == b;
    assert data[..p + n] == data[..p] + data[p..p + n];
    assert contents[..p + n] == contents[..p] + contents[p..p + n];
  }

  /** lpack */
  method LPack(vs: seq<Value>) returns (r: Option<seq<Byte>>)
    ensures r == PackAll(vs)
  {
    hide Pack, PackAll, Onto;
    var b := new Buffer();
    var i := 0;
    assert vs[0..] == vs;
    OntoNothing(PackAll(vs));
    while i < |vs|
      invariant 0 <= i <= |vs| && b.Valid() && fresh(b.repr)
      invariant PackAll(vs) == Onto(b.contents, PackAll(vs[i..]))
    {
      AllStep(vs, i, b.contents);
      var ok := b.PackOne(vs[i], 0);
      if !ok {
        return None;
      }
      i := i + 1;
    }
    AllEnds(b.contents);
    var data := b.Flatten();
    assert vs[i..] == [];
    r := Some(data[..]);
  }

  lemma OntoNothing(r: Option<seq<Byte>>)
    ensures Onto([], r) == r
  {
    if r.Some? { assert [] + r.value == r.value; }
  }

  lemma AllStep(vs: seq<Value>, i: nat, c: seq<Byte>)
    requires i < |vs|
    ensures Pack(vs[i], 0).None? ==> Onto(c, PackAll(vs[i..])) == None
    ensures Pack(vs[i], 0).Some? ==> Onto(c, PackAll(vs[i..])) == Onto(c + Pack(vs[i], 0).value, PackAll(vs[i + 1..]))
  {
    hide Pack;
    assert vs[i..][0] == vs[i] && vs[i..][1..] == vs[i + 1..];
    if Pack(vs[i], 0).Some? && PackAll(vs[i + 1..]).Some? {
      Assoc(c, Pack(vs[i], 0).value, PackAll(vs[i + 1..]).value);
    }
  }

  lemma AllEnds(c: seq<Byte>)
    ensures Onto(c, PackAll([])) == Some(c)
  {
    assert c + [] == c;
  }

  // ------------------------------------------------------------------ unpacking

  /** The reading side: a block of bytes and a position. */
  class Reader {
    const data: seq<Byte>
    var offset: nat
    var size: nat

    ghost predicate Valid()
      reads this
    {
      offset + size == |data|
    }

    ghost function Rest(): seq<Byte>
      requires Valid()
      reads this
    {
      data[offset..]
    }

    constructor (block: seq<Byte>)
      ensures Valid() && Rest() == block
    {
      data := block;
      offset, size := 0, |block|;
    }

    /** buffer_pop */
    method Pop(n: nat) returns (r: Option<seq<Byte>>)
      requires Valid()
      modifies this
      ensures Valid() && size <= old(size)
      ensures n <= old(size) ==> r == Some(old(Rest())[..n]) && Rest() == old(Rest())[n..] && size == old(size) - n
      ensures n > old(size) ==> r == None && Rest() == old(Rest())
    {
      if size < n {
        return None;
      }
      r := Some(data[offset..offset + n]);
      assert data[offset..][..n] == data[offset..offset + n] && data[offset..][n..] == data[offset + n..];
      offset := offset + n;
      size := size - n;
    }

    /** lunpack_one. None where the source would go on with input that is not there. */
    method UnpackOne() returns (r: Option<Value>)
      requires Valid()
      modifies this
      ensures Valid() && size <= old(size) && (r.Some? ==> size < old(size))
      ensures r.Some? <==> Unpack(old(Rest())).Some?
      ensures r.Some? ==> Unpack(old(Rest())) == Some(Taken(r.value, Rest()))
      decreases size, 0
    {
      hide Val, Signed64, Signed32, UnpackArray, UnpackHash;
      ghost var all := Rest();
      var t := Pop(1);
      if t.None? {
        return None;
      }
      var tag := t.value[0];
      ghost var body := Rest();
      match tag
      case 0 => r := Some(Nil);
      case 1 =>
        var b := Pop(1);
        if b.None? { return None; }
        r := Some(Bool(b.value[0] != 0));
      case 2 =>
        var w := Pop(8);
        if w.None? { return None; }
        r := Some(Integer(Signed64(Val(w.value))));
      case 3 =>
        var w := Pop(8);
        if w.None? { return None; }
        r := Some(Number(Val(w.value)));
      case 4 =>
        var l := Pop(4);
        if l.None? { return None; }
        var n := Signed32(Val(l.value));
        if n < 0 { return None; }
        ghost var rest := Rest();
        var s := Pop(n);
        if s.None? { return None; }
        StringRest(body, n);
        r := Some(Str(s.value));
      case 5 =>
        var w := Pop(8);
        if w.None? { return None; }
        r := Some(Pointer(Val(w.value)));
      case 6 => r := PopTable();
      case _ => r := None;
    }

    /** buffer_pop_table */
    method PopTable() returns (r: Option<Value>)
      requires Valid()
      modifies this
      ensures Valid() && size <= old(size) && (r.Some? ==> size < old(size))
      ensures var s := [6] + old(Rest()); r.Some? <==> Unpack(s).Some?
      ensures var s := [6] + old(Rest()); r.Some? ==> Unpack(s) == Some(Taken(r.value, Rest()))
      decreases size, 2
    {
      hide Val, Signed32, UnpackArray, UnpackHash, Unpack, Before;
      ghost var s := [6] + Rest();
      TableParts(Rest());
      var w := Pop(8);
      if w.None? {
        return None;
      }
      var n := Signed32(Val(w.value) % W32);
      var pairs: seq<Pair> := [];
      ghost var start := Rest();
      var i := 1;
      BeforeStarts(UnpackArray(1, n, start));
      while i <= n
        invariant 1 <= i && Valid() && size < old(size)
        invariant UnpackArray(1, n, start) == Before(pairs, UnpackArray(i, n, Rest()))
        decreases n - i
      {
        UnpackArrayStep(i, n, Rest(), pairs);
        var v := UnpackOne();
        if v.None? {
          return None;
        }
        pairs := pairs + Stored(Integer(i), v.value);
        i := i + 1;
      }
      UnpackArrayEnds(i, n, Rest(), pairs);
      ghost var middle := Rest();
      var more := PopPairs();
      if more.None? {
        return None;
      }
      r := Some(Table(if n < 0 then 0 else n, pairs + more.value));
    }

    /** The pairs of the hash part, up to a nil. */
    method PopPairs() returns (r: Option<seq<Pair>>)
      requires Valid()
      modifies this
      ensures Valid() && size <= old(size)
      ensures r.Some? <==> UnpackHash(old(Rest())).Some?
      ensures r.Some? ==> UnpackHash(old(Rest())) == Some(Taken(r.value, Rest()))
      decreases size, 1
    {
      hide UnpackHash, Unpack, Before;
      var pairs: seq<Pair> := [];
      ghost var start := Rest();
      BeforeStarts(UnpackHash(start));
      while true
        invariant Valid() && size <= old(size)
        invariant UnpackHash(start) == Before(pairs, UnpackHash(Rest()))
        decreases size
      {
        UnpackHashStep(Rest(), pairs);
        var k := UnpackOne();
        if k.None? {
          return None;
        }
        if k.value == Nil {
          return Some(pairs);
        }
        var v := UnpackOne();
        if v.None? {
          return None;
        }
        pairs := pairs + Stored(k.value, v.value);
      }
    }
  }

  lemma StringRest(body: seq<Byte>, n: nat)
    requires |body| >= 4
    ensures n <= |body| - 4 ==> body[4..][..n] == body[4..4 + n] && body[4..][n..] == body[4 + n..]
  {
  }

  ghost function Before(pairs: seq<Pair>, r: Option<Taken<seq<Pair>>>): Option<Taken<seq<Pair>>> {
    match r case None => None case Some(t) => Some(Taken(pairs + t.value, t.rest))
  }

  lemma BeforeStarts(r: Option<Taken<seq<Pair>>>)
    ensures Before([], r) == r
  {
    if r.Some? { assert [] + r.value.value == r.value.value; }
  }

  lemma PairsAssoc(a: seq<Pair>, b: seq<Pair>, c: seq<Pair>)
    ensures (a + b) + c == a + (b + c)
  {
  }

  lemma UnpackArrayStep(i: nat, n: int, s: seq<Byte>, pairs: seq<Pair>)
    requires i <= n
    ensures Unpack(s).None? ==> Before(pairs, UnpackArray(i, n, s)) == None
    ensures Unpack(s).Some? ==>
      var t := Unpack(s).value;
      Before(pairs, UnpackArray(i, n, s)) == Before(pairs + Stored(Integer(i), t.value), UnpackArray(i + 1, n, t.rest))
  {
    hide Unpack;
    if Unpack(s).Some? && UnpackArray(i + 1, n, Unpack(s).value.rest).Some? {
      PairsAssoc(pairs, Stored(Integer(i), Unpack(s).value.value), UnpackArray(i + 1, n, Unpack(s).value.rest).value.value);
    }
  }

  lemma UnpackArrayEnds(i: nat, n: int, s: seq<Byte>, pairs: seq<Pair>)
    requires i > n
    ensures Before(pairs, UnpackArray(i, n, s)) == Some(Taken(pairs, s))
  {
    assert pairs + [] == pairs;
  }

  lemma UnpackHashStep(s: seq<Byte>, pairs: seq<Pair>)
    ensures Unpack(s).None? ==> Before(pairs, UnpackHash(s)) == None
    ensures Unpack(s).Some? && Unpack(s).value.value == Nil ==> Before(pairs, UnpackHash(s)) == Some(Taken(pairs, Unpack(s).value.rest))
    ensures Unpack(s).Some? && Unpack(s).value.value != Nil ==>
      var k := Unpack(s).value;
      && (Unpack(k.rest).None? ==> Before(pairs, UnpackHash(s)) == None)
      && (Unpack(k.rest).Some? ==>
            var v := Unpack(k.rest).value;
            Before(pairs, UnpackHash(s)) == Before(pairs + Stored(k.value, v.value), UnpackHash(v.rest)))
  {
    hide Unpack;
    assert pairs + [] == pairs;
    if Unpack(s).Some? && Unpack(s).value.value != Nil {
      var k := Unpack(s).value;
      if Unpack(k.rest).Some? && UnpackHash(Unpack(k.rest).value.rest).Some? {
        var v := Unpack(k.rest).value;
        PairsAssoc(pairs, Stored(k.value, v.value), UnpackHash(v.rest).value.value);
      }
    }
  }

  ghost function TableOf(body: seq<Byte>): Option<Taken<Value>> {
    if |body| < 8 then None
    else
      var n := Signed32(Val(body[..8]) % W32);
      match UnpackArray(1, n, body[8..])
      case None => None
      case Some(a) =>
        match UnpackHash(a.rest)
        case None => None
        case Some(h) => Some(Taken(Table(if n < 0 then 0 else n, a.value + h.value), h.rest))
  }

  lemma TableBytes(s: seq<Byte>)
    requires s != [] && s[0] == 6
    ensures Unpack(s) == TableOf(s[1..])
  {
    hide UnpackArray, UnpackHash, Val, Signed32;
  }

  /** What the bytes of a table amount to. */
  lemma TableParts(body: seq<Byte>)
    ensures Unpack([6] + body) == TableOf(body)
  {
    hide Unpack, TableOf;
    TableBytes([6] + body);
    assert ([6] + body)[1..] == body;
  }

  /** lunpack: values until the block is used up. */
  method LUnpack(block: seq<Byte>) returns (r: Option<seq<Value>>)
    ensures r == UnpackAll(block)
  {
    hide Unpack, UnpackAll, Front;
    var b := new Reader(block);
    var vs: seq<Value> := [];
    FrontStarts(UnpackAll(block));
    while b.size > 0
      invariant fresh(b) && b.Valid() && UnpackAll(block) == Front(vs, UnpackAll(b.Rest()))
      decreases b.size
    {
      UnpackAllStep(b.Rest(), vs);
      var v := b.UnpackOne();
      if v.None? {
        return None;
      }
      vs := vs + [v.value];
    }
    UnpackAllEnds(vs);
    assert b.Rest() == [];
    r := Some(vs);
  }

  ghost function Front(vs: seq<Value>, r: Option<seq<Value>>): Option<seq<Value>> {
    match r case None => None case Some(ws) => Some(vs + ws)
  }

  lemma FrontStarts(r: Option<seq<Value>>)
    ensures Front([], r) == r
  {
    if r.Some? { assert [] + r.value == r.value; }
  }

  lemma UnpackAllStep(s: seq<Byte>, vs: seq<Value>)
    requires s != []
    ensures Unpack(s).None? ==> Front(vs, UnpackAll(s)) == None
    ensures Unpack(s).Some? ==>
      Front(vs, UnpackAll(s)) == Front(vs + [Unpack(s).value.value], UnpackAll(Unpack(s).value.rest))
  {
    hide Unpack;
    if Unpack(s).Some? && UnpackAll(Unpack(s).value.rest).Some? {
      var ws := UnpackAll(Unpack(s).value.rest).value;
      assert (vs + [Unpack(s).value.value]) + ws == vs + ([Unpack(s).value.value] + ws);
    }
  }

  lemma UnpackAllEnds(vs: seq<Value>)
    ensures Front(vs, UnpackAll([])) == Some(vs)
  {
    assert vs + [] == vs;
  }

  /** Packing in one service and unpacking in another. */
  method Transfer(vs: seq<Value>) returns (r: Option<seq<Value>>)
    requires forall i :: 0 <= i < |vs| ==> WellFormed(vs[i])
    ensures r == if PackAll(vs).None? then None else Some(NormalAll(vs))
  {
    hide PackAll, UnpackAll, NormalAll, WellFormed;
    var block := LPack(vs);
    if block.None? {
      return None;
    }
    AllBack(vs);
    r := LUnpack(block.value);
  }
}
