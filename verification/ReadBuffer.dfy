/** The read buffer of a socket (lualib/lsocket.c): a list of received chunks, read from the
    front. Whatever way the bytes were cut into chunks, it behaves like the string of its bytes.
 */
module ReadBuffer {
  import opened Basics

  type Byte = x: int | 0 <= x < 256

  class BufferNode {
    var data: seq<Byte>
    var next: BufferNode?

    constructor ()
      ensures data == [] && next == null
    {
      data, next := [], null;
    }
  }

  /** `head` leads through `nodes` to null. */
  ghost predicate Chain(head: BufferNode?, nodes: seq<BufferNode>)
    reads nodes
  {
    if nodes == [] then head == null
    else
      && head == nodes[0] && nodes[|nodes| - 1].next == null
      && (forall i :: 0 <= i < |nodes| - 1 ==> nodes[i].next == nodes[i + 1])
      && (forall i, j :: 0 <= i < j < |nodes| ==> nodes[i] != nodes[j])
  }

  /** The chunks one after another. */
  function Flat(chunks: seq<seq<Byte>>): seq<Byte> {
    if chunks == [] then [] else chunks[0] + Flat(chunks[1..])
  }

  lemma {:induction false} FlatAppend(chunks: seq<seq<Byte>>, c: seq<Byte>)
    ensures Flat(chunks + [c]) == Flat(chunks) + c
  {
    if chunks == [] {
      assert [c][1..] == [] && Flat([c]) == c + Flat([]) == c && [] + c == c;
    } else {
      FlatAppend(chunks[1..], c);
      assert (chunks + [c])[1..] == chunks[1..] + [c];
      assert (chunks[0] + Flat(chunks[1..])) + c == chunks[0] + (Flat(chunks[1..]) + c);
    }
  }

  /** The separator stands at position `i`. */
  predicate SepAt(s: seq<Byte>, sep: seq<Byte>, i: nat) {
    i + |sep| <= |s| && s[i..i + |sep|] == sep
  }

  /** The first position of the separator, from `i` on. */
  function FirstSep(s: seq<Byte>, sep: seq<Byte>, i: nat): (r: Option<nat>)
    ensures r.Some? ==> i <= r.value && SepAt(s, sep, r.value) && forall j :: i <= j < r.value ==> !SepAt(s, sep, j)
    ensures r.None? ==> forall j :: i <= j ==> !SepAt(s, sep, j)
    decreases |s| - i
  {
    if i + |sep| > |s| then None else if SepAt(s, sep, i) then Some(i) else FirstSep(s, sep, i + 1)
  }

  /** The nodes that are not in use. */
  class BufferPool {
    var freelist: BufferNode?
    ghost var free: seq<BufferNode>
    /** These and the nodes of the buffer. */
    ghost var all: set<BufferNode>

    ghost predicate Valid()
      reads this, free
    {
      Chain(freelist, free) && forall n :: n in free ==> n in all
    }

    constructor ()
      ensures Valid() && free == [] && all == {}
    {
      freelist, free, all := null, [], {};
    }
  }

  class Buffer {
    var size: int
    var offset: nat
    var head: BufferNode?
    var tail: BufferNode?
    ghost var nodes: seq<BufferNode>
    ghost var chunks: seq<seq<Byte>>

    ghost predicate Linked()
      reads `head, `tail, `offset, `nodes, `chunks, nodes
    {
      && Chain(head, nodes) && (if nodes == [] then tail == null else tail == nodes[|nodes| - 1])
      && |chunks| == |nodes| && (forall i :: 0 <= i < |nodes| ==> nodes[i].data == chunks[i] != [])
      && (if nodes == [] then offset == 0 else offset < |chunks[0]|)
      && offset <= |Flat(chunks)|
    }

    ghost predicate Valid()
      reads this, nodes
    {
      Linked() && size == |Contents()|
    }

    /** The bytes that have not been read. */
    ghost function Contents(): seq<Byte>
      requires offset <= |Flat(chunks)|
      reads `offset, `chunks
    {
      Flat(chunks)[offset..]
    }

    constructor ()
      ensures Valid() && Contents() == [] && nodes == []
    {
      size, offset, head, tail := 0, 0, null, null;
      nodes, chunks := [], [];
    }
  }

  /** A buffer and a pool whose nodes are different. */
  ghost predicate Ready(b: Buffer, bp: BufferPool): (r: bool)
    reads b`head, b`tail, b`offset, b`nodes, b`chunks, bp, b.nodes, bp.free
    ensures r ==> b.Linked() && b.offset <= |Flat(b.chunks)|
  {
    && b.Linked() && bp.Valid() && (forall n :: n in b.nodes ==> n in bp.all)
    && forall i, j :: 0 <= i < |b.nodes| && 0 <= j < |bp.free| ==> b.nodes[i] != bp.free[j]
  }

  /** _freebuffer: the first node goes back to the pool. */
  method FreeBuffer(b: Buffer, bp: BufferPool)
    requires Ready(b, bp) && b.nodes != []
    modifies b`head, b`tail, b`offset, b`nodes, b`chunks, bp, bp.all
    ensures Ready(b, bp) && b.chunks == old(b.chunks)[1..] && b.offset == 0
    ensures bp.all == old(bp.all)
  {
    var node := b.head;
    if node.next == null {
      b.head, b.tail := null, null;
    } else {
      b.head := node.next;
    }
    b.offset := 0;
    node.data := [];
    node.next := bp.freelist;
    bp.freelist := node;
    bp.free := [node] + bp.free;
    b.nodes := b.nodes[1..];
    b.chunks := b.chunks[1..];
  }

  /** The first chunk of what is left, and what comes after it. */
  lemma FirstChunk(chunks: seq<seq<Byte>>, offset: nat)
    requires chunks != [] && offset <= |chunks[0]|
    ensures offset <= |Flat(chunks)|
    ensures Flat(chunks)[offset..] == chunks[0][offset..] + Flat(chunks[1..])
  {
  }

  lemma SplitAt(a: seq<Byte>, b: seq<Byte>, n: nat)
    requires n <= |a| + |b|
    ensures n <= |a| ==> (a + b)[..n] == a[..n] && (a + b)[n..] == a[n..] + b
    ensures n >= |a| ==> (a + b)[..n] == a + b[..n - |a|] && (a + b)[n..] == b[n - |a|..]
  {
  }

  lemma DropTwice(a: seq<Byte>, m: nat, n: nat)
    requires m + n <= |a|
    ensures a[m..][n..] == a[m + n..] && a[m..][..n] == a[m..m + n]
  {
  }

  /** lpop_string: the first `size` bytes are taken, and returned without the last `skip`.  When there
      are fewer, all of them are taken, and the source runs off the end of the list. */
  method PopString(b: Buffer, bp: BufferPool, size0: nat, skip: nat) returns (s: Option<seq<Byte>>)
    requires Ready(b, bp) && b.nodes != [] && skip <= size0
    modifies b`head, b`tail, b`offset, b`nodes, b`chunks, bp, bp.all
    ensures Ready(b, bp)
    ensures s == if size0 <= |old(b.Contents())| then Some(old(b.Contents())[..size0 - skip]) else None
    ensures b.Contents() == if size0 <= |old(b.Contents())| then old(b.Contents())[size0..] else []
    ensures bp.all == old(bp.all)
  {
    hide Flat, Chain;
    ghost var all := b.Contents();
    var cur := b.head;
    FirstChunk(b.chunks, b.offset);
    HeadData(b);
    if size0 < |cur.data| - b.offset {
      SplitAt(b.chunks[0][b.offset..], Flat(b.chunks[1..]), size0 - skip);
      s := Some(cur.data[b.offset..b.offset + size0 - skip]);
      DropTwice(cur.data, b.offset, size0 - skip);
      Advance(b, bp, size0);
      return;
    }
    if size0 == |cur.data| - b.offset {
      SplitAt(b.chunks[0][b.offset..], Flat(b.chunks[1..]), size0);
      SplitAt(b.chunks[0][b.offset..], Flat(b.chunks[1..]), size0 - skip);
      s := Some(cur.data[b.offset..b.offset + size0 - skip]);
      DropTwice(cur.data, b.offset, size0 - skip);
      FreeBuffer(b, bp);
      return;
    }
    s := PopLong(b, bp, size0, skip);
  }

  lemma HeadData(b: Buffer)
    requires b.Linked() && b.nodes != []
    ensures |b.chunks| == |b.nodes| > 0 && b.head != null && b.head == b.nodes[0] && b.head.data == b.chunks[0] && b.offset < |b.chunks[0]|
  {
  }

  method Advance(b: Buffer, bp: BufferPool, n: nat)
    requires Ready(b, bp) && b.nodes != [] && b.offset + n < |b.chunks[0]|
    modifies b`offset
    ensures Ready(b, bp) && b.offset == old(b.offset) + n && b.Contents() == old(b.Contents())[n..]
  {
    FirstChunk(b.chunks, b.offset);
    FirstChunk(b.chunks, b.offset + n);
    DropTwice(Flat(b.chunks), b.offset, n);
    b.offset := b.offset + n;
  }

  /** What lpop_string still has to do: with enough bytes, what is wanted of the rest follows what it
      has, and what the rest leaves is left at the end. */
  ghost predicate Owes(all: seq<Byte>, size0: nat, skip: nat, s: seq<Byte>, rest: seq<Byte>, size: nat) {
    && |all| - size0 == |rest| - size
    && (size <= |rest| ==>
          skip <= size0 <= |all| && rest[size..] == all[size0..] && all[..size0 - skip] == s + rest[..Wanted(size, skip)])
  }

  /** The loop of lpop_string, for a string that reaches into more than one chunk. */
  method PopLong(b: Buffer, bp: BufferPool, size0: nat, skip: nat) returns (r: Option<seq<Byte>>)
    requires Ready(b, bp) && b.nodes != [] && skip <= size0 && 0 < size0
    modifies b`head, b`tail, b`offset, b`nodes, b`chunks, bp, bp.all
    ensures Ready(b, bp)
    ensures r == if size0 <= |old(b.Contents())| then Some(old(b.Contents())[..size0 - skip]) else None
    ensures b.Contents() == if size0 <= |old(b.Contents())| then old(b.Contents())[size0..] else []
    ensures bp.all == old(bp.all)
  {
    hide Flat, Chain, Ready, Buffer.Linked, Owes;
    ghost var all := b.Contents();
    var size, s := size0, [];
    OwesAll(all, size0, skip);
    while true
      invariant Ready(b, bp) && b.nodes != [] && 0 < size && bp.all == old(bp.all)
      invariant Owes(all, size0, skip, s, b.Contents(), size)
      decreases size
    {
      var cur := b.head;
      HeadData(b);
      FirstChunk(b.chunks, b.offset);
      ghost var first, more := cur.data[b.offset..], Flat(b.chunks[1..]);
      var bytes := |cur.data| - b.offset;
      OwesLess(all, size0, skip, s, first, more, size);
      s := s + Part(cur.data, b.offset, size, skip);
      if bytes >= size {
        if bytes == size {
          FreeBuffer(b, bp);
        } else {
          Advance(b, bp, size);
          SplitAt(first, more, size);
        }
        return Some(s);
      }
      FreeBuffer(b, bp);
      size := size - bytes;
      HeadOrNone(b);
      if b.head == null {
        NoChunks(b);
        OwesTooMuch(all, size0, skip, s, size);
        return None;
      }
    }
  }

  lemma OwesAll(all: seq<Byte>, size0: nat, skip: nat)
    requires skip <= size0
    ensures Owes(all, size0, skip, [], all, size0)
  {
    if size0 <= |all| { assert [] + all[..size0 - skip] == all[..size0 - skip]; }
  }

  lemma OwesTooMuch(all: seq<Byte>, size0: nat, skip: nat, s: seq<Byte>, size: nat)
    requires Owes(all, size0, skip, s, [], size) && size > 0
    ensures size0 > |all|
  {
  }

  /** One chunk: it settles the rest, or leaves less to do. */
  lemma OwesLess(all: seq<Byte>, size0: nat, skip: nat, s: seq<Byte>, first: seq<Byte>, more: seq<Byte>, size: nat)
    requires Owes(all, size0, skip, s, first + more, size)
    ensures var want := Wanted(size, skip);
            var s' := s + first[..if want < |first| then want else |first|];
            && (|first| >= size ==> skip <= size0 <= |all| && s' == all[..size0 - skip] && (first + more)[size..] == all[size0..])
            && (|first| < size ==> Owes(all, size0, skip, s', more, size - |first|))
  {
    if size <= |first + more| {
      SplitAt(first, more, size);
      TakeMore(s, first, more, size, skip);
    }
  }

  function Wanted(size: nat, skip: nat): nat { if size > skip then size - skip else 0 }

  /** What a chunk adds to the string (luaL_addlstring, on both branches). */
  function Part(data: seq<Byte>, offset: nat, size: nat, skip: nat): (r: seq<Byte>)
    requires offset <= |data|
    ensures var want := Wanted(size, skip);
            r == data[offset..][..if want < |data| - offset then want else |data| - offset]
  {
    var bytes := |data| - offset;
    if bytes >= size then
      if size > skip then data[offset..offset + size - skip] else []
    else if size - skip > 0 then
      data[offset..offset + if size - skip < bytes then size - skip else bytes]
    else []
  }

  /** Taking what is wanted of the first chunk leaves what is wanted of the rest. */
  lemma TakeMore(s: seq<Byte>, first: seq<Byte>, more: seq<Byte>, size: nat, skip: nat)
    requires size <= |first| + |more|
    ensures var want := Wanted(size, skip);
            var n := if want < |first| then want else |first|;
            && s + (first + more)[..want] == (s + first[..n]) + more[..want - n]
            && (|first| < size ==> want - n == Wanted(size - |first|, skip))
            && (|first| >= size ==> want == n && more[..0] == [])
  {
    var want := Wanted(size, skip);
    var n := if want < |first| then want else |first|;
    assert (first + more)[..want] == first[..n] + more[..want - n];
    assert s + (first[..n] + more[..want - n]) == (s + first[..n]) + more[..want - n];
  }

  lemma MoreChunks(b: Buffer)
    requires b.Linked() && b.Contents() != []
    ensures b.nodes != []
  {
  }

  /** What lpopbuffer comes to: nil, a string, Lua's error for a string that is too long, or the end
      of the program in a null pointer or a failed assertion. */
  datatype Popped = Nothing | Bytes(s: seq<Byte>) | LengthError | NullHead | OutOfChunks

  /** lpopbuffer, whatever `size` says.  A negative number of bytes passes the test for room; it is the
      length of a string that is too long if there is a node, and otherwise there is no node to look
      at.  When the size is too large the list can end before the string does. */
  method PopBuffer(b: Buffer, bp: BufferPool, size: int) returns (r: Popped, left: int)
    requires Ready(b, bp)
    modifies b, bp, bp.all
    ensures Ready(b, bp) && bp.all == old(bp.all) && left == b.size
    ensures r.Nothing? <==> old(b.size) < size || size == 0
    ensures r.NullHead? <==> old(b.nodes) == [] && size != 0 && size <= old(b.size)
    ensures r.LengthError? <==> old(b.nodes) != [] && size < 0 && size <= old(b.size)
    ensures r.OutOfChunks? <==> old(b.nodes) != [] && |old(b.Contents())| < size <= old(b.size)
    ensures r.Bytes? ==> 0 < size <= |old(b.Contents())| && r.s == old(b.Contents())[..size] && b.size == old(b.size) - size
    ensures b.Contents() == if r.Bytes? then old(b.Contents())[size..] else if r.OutOfChunks? then [] else old(b.Contents())
    ensures r.Nothing? || r.LengthError? || r.NullHead? ==> b.size == old(b.size)
    ensures old(b.Valid()) ==> b.Valid() && !r.OutOfChunks? && (r.NullHead? <==> old(b.nodes) == [] && size < 0)
  {
    r, left := Nothing, b.size;
    if b.size < size || size == 0 {
      return;
    }
    HeadOrNone(b);
    if b.head == null {
      return NullHead, b.size;
    }
    if size < 0 {
      return LengthError, b.size;
    }
    var s := PopString(b, bp, size, 0);
    if s == None {
      return OutOfChunks, b.size;
    }
    b.size := b.size - size;
    r, left := Bytes(s.value), b.size;
  }

  /** lreadall, which sets the size right in any case. */
  method ReadAll(b: Buffer, bp: BufferPool) returns (s: seq<Byte>)
    requires Ready(b, bp)
    modifies b, bp, bp.all
    ensures Ready(b, bp) && b.Valid() && bp.all == old(bp.all)
    ensures s == old(b.Contents()) && b.Contents() == []
  {
    hide Flat, Chain, Ready, Buffer.Linked;
    s := [];
    while b.head != null
      invariant Ready(b, bp) && bp.all == old(bp.all)
      invariant old(b.Contents()) == s + b.Contents()
      decreases |b.chunks|
    {
      var cur := b.head;
      HeadOrNone(b);
      HeadData(b);
      FirstChunk(b.chunks, b.offset);
      ghost var first, more := cur.data[b.offset..], Flat(b.chunks[1..]);
      assert s + (first + more) == (s + first) + more;
      s := s + cur.data[b.offset..];
      FreeBuffer(b, bp);
    }
    HeadOrNone(b);
    NoChunks(b);
    b.size := 0;
  }

  lemma HeadOrNone(b: Buffer)
    requires b.Linked()
    ensures b.head == null <==> b.nodes == []
  {
  }

  lemma NoChunks(b: Buffer)
    requires b.Linked() && b.nodes == []
    ensures b.Contents() == []
  {
  }

  /** lpushbuffer: a chunk goes behind the others. Sockets hand over no empty chunks. */
  method PushBuffer(b: Buffer, bp: BufferPool, data: seq<Byte>) returns (size: int)
    requires Ready(b, bp) && data != []
    modifies b, bp, bp.all
    ensures Ready(b, bp) && fresh(bp.all - old(bp.all)) && (b.Valid() <==> old(b.Valid()))
    ensures b.chunks == old(b.chunks) + [data]
    ensures b.Contents() == old(b.Contents()) + data && size == b.size == old(b.size) + |data|
  {
    if bp.freelist == null {
      Refill(b, bp);
    }
    PushNode(b, bp, data);
    b.size := b.size + |data|;
    size := b.size;
  }

  /** A pool that has run out gets two more nodes. */
  method Refill(b: Buffer, bp: BufferPool)
    requires Ready(b, bp) && bp.freelist == null
    modifies bp
    ensures Ready(b, bp) && bp.free != [] && fresh(bp.all - old(bp.all)) && bp.all >= old(bp.all)
  {
    var first := new BufferNode();
    var second := new BufferNode();
    first.next := second;
    bp.freelist := first;
    bp.free := [first, second];
    bp.all := bp.all + {first, second};
  }

  method PushNode(b: Buffer, bp: BufferPool, data: seq<Byte>)
    requires Ready(b, bp) && bp.freelist != null && data != []
    modifies b`head, b`tail, b`nodes, b`chunks, bp, bp.all
    ensures Ready(b, bp) && bp.all == old(bp.all) && b.chunks == old(b.chunks) + [data]
    ensures b.Contents() == old(b.Contents()) + data
  {
    hide Flat;
    FlatAppend(b.chunks, data);
    FlatNothing();
    assert (Flat(b.chunks) + data)[b.offset..] == Flat(b.chunks)[b.offset..] + data;
    var node := bp.freelist;
    bp.freelist := node.next;
    bp.free := bp.free[1..];
    node.data := data;
    node.next := null;
    if b.head == null {
      b.head, b.tail := node, node;
    } else {
      b.tail.next := node;
      b.tail := node;
    }
    b.nodes := b.nodes + [node];
    b.chunks := b.chunks + [data];
  }

  /** lfreebuffer: the first chunk is dropped and no other; `size` is not told, so that it stays the
      number of bytes exactly if there was no chunk. */
  method Free(b: Buffer, bp: BufferPool)
    requires Ready(b, bp)
    modifies b`head, b`tail, b`offset, b`nodes, b`chunks, bp, bp.all
    ensures Ready(b, bp) && bp.all == old(bp.all)
    ensures b.chunks == (if old(b.nodes) == [] then old(b.chunks) else old(b.chunks)[1..])
    ensures b.offset == 0
    ensures old(b.Valid()) ==> (b.Valid() <==> old(b.nodes) == [])
    ensures old(b.Valid()) ==> (b.size > |b.Contents()| <==> old(b.nodes) != [])
  {
    HeadOrNone(b);
    if b.head != null {
      FirstChunk(b.chunks, b.offset);
      FreeBuffer(b, bp);
    }
  }

  /** Two ways to a null pointer: a negative number of bytes from a new buffer, and any byte of a
      buffer that has been freed. */
  method PopNegative() returns (r: Popped)
    ensures r == NullHead
  {
    var b := new Buffer();
    var bp := new BufferPool();
    var left: int;
    r, left := PopBuffer(b, bp, -1);
  }

  method PopAfterFree(data: seq<Byte>) returns (r: Popped)
    requires data != []
    ensures r == NullHead
  {
    var b := new Buffer();
    var bp := new BufferPool();
    var left := PushBuffer(b, bp, data);
    Free(b, bp);
    r, left := PopBuffer(b, bp, 1);
  }

  lemma FlatNothing()
    ensures Flat([]) == []
  {
  }

  // ----------------------------------------------------------------- separators

  /** The node `k` and a position in it. */
  ghost predicate Here(b: Buffer, k: nat, node: BufferNode?, from: nat): (r: bool)
    reads b, b.nodes
    ensures r ==> node != null && k < |b.nodes| == |b.chunks| && from <= |b.chunks[k]|
  {
    b.Linked() && k < |b.nodes| && node == b.nodes[k] && from <= |b.chunks[k]| && |b.chunks| == |b.nodes|
  }

  /** What can be read from there on. */
  ghost function From(b: Buffer, k: nat, from: nat): seq<Byte>
    requires k < |b.chunks| && from <= |b.chunks[k]|
    reads b
  {
    b.chunks[k][from..] + Flat(b.chunks[k + 1..])
  }

  lemma NextNode(b: Buffer, k: nat, node: BufferNode, from: nat)
    requires Here(b, k, node, from)
    ensures node.data == b.chunks[k] != []
    ensures k + 1 == |b.nodes| ==> node.next == null && Flat(b.chunks[k + 1..]) == []
    ensures k + 1 < |b.nodes| ==> node.next != null && Here(b, k + 1, node.next, 0) && Flat(b.chunks[k + 1..]) == From(b, k + 1, 0)
  {
    if k + 1 < |b.nodes| {
      assert b.nodes[k].next == b.nodes[k + 1];
      assert b.chunks[k + 1..][1..] == b.chunks[k + 2..];
    }
  }

  /** Does `c` begin with the separator?  None when it ends before that is decided. */
  function Check(c: seq<Byte>, sep: seq<Byte>): Option<bool> {
    if sep <= c then Some(true) else if c <= sep then None else Some(false)
  }

  /** check_sep: the separator may span several chunks.  None when the source runs off the end of the
      list (a null pointer). */
  method CheckSep(b: Buffer, node0: BufferNode, ghost k0: nat, from0: nat, sep0: seq<Byte>) returns (r: Option<bool>)
    requires Here(b, k0, node0, from0)
    ensures r == Check(From(b, k0, from0), sep0)
  {
    hide Here, Flat, From, Check;
    var node: BufferNode?, from: nat, sep := node0, from0, sep0;
    ghost var k: nat := k0;
    while true
      invariant Here(b, k, node, from) && k < |b.chunks| && from <= |b.chunks[k]|
      invariant Check(From(b, k0, from0), sep0) == Check(From(b, k, from), sep)
      decreases |b.nodes| - k
    {
      NextNode(b, k, node, from);
      FromParts(b, k, from);
      var size := |node.data| - from;
      if size >= |sep| {
        CheckFirst(node.data[from..], Flat(b.chunks[k + 1..]), sep);
        return Some(node.data[from..from + |sep|] == sep);
      }
      CheckPast(node.data[from..], Flat(b.chunks[k + 1..]), sep);
      if size > 0 {
        if node.data[from..] != sep[..size] {
          return Some(false);
        }
      }
      node := node.next;
      sep := sep[size..];
      from := 0;
      if node == null {
        CheckNothing(sep);
        return None;
      }
      k := k + 1;
    }
  }

  lemma FromParts(b: Buffer, k: nat, from: nat)
    requires k < |b.chunks| && from <= |b.chunks[k]|
    ensures From(b, k, from) == b.chunks[k][from..] + Flat(b.chunks[k + 1..])
  {
  }

  lemma CheckFirst(first: seq<Byte>, more: seq<Byte>, sep: seq<Byte>)
    requires |sep| <= |first|
    ensures Check(first + more, sep) == Some(first[..|sep|] == sep)
  {
    assert (first + more)[..|sep|] == first[..|sep|];
    if first + more <= sep { assert first + more == sep; }
  }

  lemma CheckPast(first: seq<Byte>, more: seq<Byte>, sep: seq<Byte>)
    requires |first| < |sep|
    ensures Check(first + more, sep) == if first == sep[..|first|] then Check(more, sep[|first|..]) else Some(false)
  {
    var rest := sep[|first|..];
    assert sep == sep[..|first|] + rest;
    assert (first + more)[..|first|] == first;
    if sep <= first + more || first + more <= sep { assert sep[..|first|] == (first + more)[..|first|]; }
    if first == sep[..|first|] {
      Same(first, rest, more);
      Same(first, more, rest);
    }
  }

  lemma Same(a: seq<Byte>, x: seq<Byte>, y: seq<Byte>)
    ensures a + x <= a + y <==> x <= y
  {
    if a + x <= a + y { assert x == (a + x)[|a|..] == (a + y)[|a|..|a| + |x|] == y[..|x|]; }
    if x <= y { assert a + y == (a + x) + y[|x|..]; }
  }

  lemma CheckNothing(sep: seq<Byte>)
    requires sep != []
    ensures Check([], sep) == None
  {
  }

  datatype Line = Absent | Present | Text(s: seq<Byte>) | OffEnd

  /** What readline answers for a string of bytes. */
  function Answer(s: seq<Byte>, sep: seq<Byte>, check: bool): Line {
    if s == [] then Absent
    else
      match FirstSep(s, sep, 0)
      case None => Absent
      case Some(i) => if check then Present else Text(s[..i])
  }

  /** What is left after it. */
  function Left(s: seq<Byte>, sep: seq<Byte>, check: bool): seq<Byte> {
    if s == [] || check then s
    else
      match FirstSep(s, sep, 0)
      case None => s
      case Some(i) => s[i + |sep|..]
  }

  /** What the answer means for the bytes: a text and the separator behind it stood in front of what is
      left, and no separator stands earlier.  Otherwise nothing has gone, and there is a separator or
      there is none. */
  lemma AnswerMeans(s: seq<Byte>, sep: seq<Byte>, check: bool)
    ensures Means(s, sep, check, Answer(s, sep, check), Left(s, sep, check))
  {
    match FirstSep(s, sep, 0)
    case None =>
      forall i | 0 <= i <= |s| ensures !(sep <= s[i..]) { Stands(s, sep, i); }
    case Some(i) =>
      assert s == s[..i] + s[i..i + |sep|] + s[i + |sep|..];
      Stands(s, sep, i);
      forall j | 0 <= j < i ensures !(sep <= s[j..]) { Stands(s, sep, j); }
  }

  lemma Stands(s: seq<Byte>, sep: seq<Byte>, i: nat)
    requires i <= |s|
    ensures sep <= s[i..] <==> SepAt(s, sep, i)
  {
    if i + |sep| <= |s| { assert s[i..][..|sep|] == s[i..i + |sep|]; }
  }

  /** `r` is the right answer for the bytes `before`, of which `after` are left. */
  ghost predicate Means(before: seq<Byte>, sep: seq<Byte>, check: bool, r: Line, after: seq<Byte>) {
    match r
    case Text(s) => !check && before == s + sep + after && before != [] && forall i :: 0 <= i < |s| ==> !(sep <= before[i..])
    case Present => check && after == before != [] && exists i :: 0 <= i <= |before| && sep <= before[i..]
    case Absent => after == before && (before == [] || forall i :: 0 <= i <= |before| ==> !(sep <= before[i..]))
    case OffEnd => false
  }

  /** At `i` the bytes end within what could be the separator, although `size` says that there is
      room for it. */
  ghost predicate Astray(s: seq<Byte>, sep: seq<Byte>, size: int, i: nat) {
    i < |s| && |s| < i + |sep| <= size && s[i..] <= sep
  }

  /** The search of lreadline. */
  method FindLine(b: Buffer, bp: BufferPool, sep: seq<Byte>, check: bool) returns (r: Line)
    requires Ready(b, bp) && b.size >= |b.Contents()|
    modifies b, bp, bp.all
    ensures Ready(b, bp) && bp.all == old(bp.all)
    ensures r.OffEnd? <==> FirstSep(old(b.Contents()), sep, 0) == None && exists i :: Astray(old(b.Contents()), sep, old(b.size), i)
    ensures r.OffEnd? || r == Answer(old(b.Contents()), sep, check)
    ensures b.Contents() == Left(old(b.Contents()), sep, check)
    ensures b.size - |b.Contents()| == old(b.size - |b.Contents()|)
    ensures old(b.Valid()) ==> b.Valid() && !r.OffEnd?
  {
    hide Flat, Chain, Ready, Buffer.Linked, Here, From, FirstSep, SepAt, Astray, Check;
    ghost var c, size := b.Contents(), b.size;
    NeverAstray(c, sep);
    var cur := b.head;
    HeadOrNone(b);
    if cur == null {
      NoChunks(b);
      NoneAstray(c, sep, size, 0);
      return Absent;
    }
    StartHere(b);
    var from := b.offset;
    var bytes := |cur.data| - from;
    var i := 0;
    ghost var k := 0;
    while i <= b.size - |sep|
      invariant Ready(b, bp) && b.size == size >= |c| && b.Contents() == c && bp.all == old(bp.all)
      invariant 0 <= i && Here(b, k, cur, from) && bytes == |b.chunks[k]| - from > 0
      invariant i <= |c| && From(b, k, from) == c[i..]
      invariant FirstSep(c, sep, 0) == FirstSep(c, sep, i) && forall j :: 0 <= j < i ==> !Astray(c, sep, size, j)
      decreases b.size - i
    {
      OneByte(b, k, cur, from, c, i);
      SearchStep(c, sep, size, i);
      var found := CheckSep(b, cur, k, from, sep);
      if found == None {
        return OffEnd;
      }
      if found.value {
        if check {
          return Present;
        }
        var s := PopString(b, bp, i + |sep|, |sep|);
        b.size := b.size - (i + |sep|);
        return Text(s.value);
      }
      NextNode(b, k, cur, from);
      from := from + 1;
      bytes := bytes - 1;
      i := i + 1;
      if bytes == 0 {
        cur := cur.next;
        from := 0;
        k := k + 1;
        if cur == null {
          assert c[i..] == [];
          break;
        }
        NextNode(b, k, cur, 0);
        bytes := |cur.data|;
      }
    }
    SearchEnds(c, sep, i);
    NoneAstray(c, sep, size, i);
    r := Absent;
  }

  /** lreadline: the bytes up to the first separator, which is removed with them; with `check`
      only whether there is one.  With a size that is too large, as `Free` leaves it, the search may
      run off the end of the list. */
  method ReadLine(b: Buffer, bp: BufferPool, sep: seq<Byte>, check: bool) returns (r: Line)
    requires Ready(b, bp) && b.size >= |b.Contents()|
    modifies b, bp, bp.all
    ensures Ready(b, bp) && bp.all == old(bp.all)
    ensures r.OffEnd? <==> FirstSep(old(b.Contents()), sep, 0) == None && exists i :: Astray(old(b.Contents()), sep, old(b.size), i)
    ensures r.OffEnd? || r == Answer(old(b.Contents()), sep, check)
    ensures r.OffEnd? || Means(old(b.Contents()), sep, check, r, b.Contents())
    ensures b.Contents() == Left(old(b.Contents()), sep, check)
    ensures b.size - |b.Contents()| == old(b.size - |b.Contents()|)
    ensures old(b.Valid()) ==> b.Valid() && !r.OffEnd?
  {
    hide Answer, Left, FirstSep, Means, Flat, Ready, Astray;
    AnswerMeans(b.Contents(), sep, check);
    r := FindLine(b, bp, sep, check);
  }

  lemma StartHere(b: Buffer)
    requires b.Linked() && b.nodes != []
    ensures Here(b, 0, b.head, b.offset) && b.offset < |b.chunks[0]| && b.head.data == b.chunks[0]
    ensures From(b, 0, b.offset) == b.Contents() && b.Contents() != []
  {
    FirstChunk(b.chunks, b.offset);
  }

  /** What check_sep answers at `i` means for the search. */
  lemma SearchStep(c: seq<Byte>, sep: seq<Byte>, size: int, i: nat)
    requires i < |c| && i + |sep| <= size
    ensures var r := Check(c[i..], sep);
            && (r == Some(true) ==> i + |sep| <= |c| && FirstSep(c, sep, i) == Some(i))
            && (r == None ==> FirstSep(c, sep, i) == None && Astray(c, sep, size, i))
            && (r == Some(false) ==> sep != [] && FirstSep(c, sep, i) == FirstSep(c, sep, i + 1) && !Astray(c, sep, size, i))
  {
    if i + |sep| <= |c| { assert c[i..][..|sep|] == c[i..i + |sep|]; }
  }

  lemma NeverAstray(c: seq<Byte>, sep: seq<Byte>)
    ensures forall i :: !Astray(c, sep, |c|, i)
  {
  }

  lemma NoneAstray(c: seq<Byte>, sep: seq<Byte>, size: int, i: nat)
    requires (i + |sep| > size || i >= |c|) && forall j :: 0 <= j < i ==> !Astray(c, sep, size, j)
    ensures forall j :: !Astray(c, sep, size, j)
  {
  }

  lemma SearchEnds(c: seq<Byte>, sep: seq<Byte>, i: nat)
    requires i + |sep| > |c|
    ensures FirstSep(c, sep, i) == None
  {
  }

  lemma OneByte(b: Buffer, k: nat, node: BufferNode, from: nat, c: seq<Byte>, i: nat)
    requires Here(b, k, node, from) && from < |b.chunks[k]| && i <= |c| && From(b, k, from) == c[i..]
    ensures i < |c| && Here(b, k, node, from + 1) && From(b, k, from + 1) == c[i + 1..]
    ensures from + 1 == |b.chunks[k]| ==> Flat(b.chunks[k + 1..]) == c[i + 1..]
  {
    var x := b.chunks[k][from..];
    assert From(b, k, from)[1..] == x[1..] + Flat(b.chunks[k + 1..]) && x[1..] == b.chunks[k][from + 1..];
    assert c[i..][1..] == c[i + 1..];
    if from + 1 == |b.chunks[k]| {
      assert b.chunks[k][from + 1..] == [];
    }
  }
}
