/** Reassembly of length-prefixed packets (lualib/lnetpack.c): chunks of many connections arrive
    in any cut; what is delivered is what one would read from each connection's whole stream.
 */
module NetPack {
  import opened Basics

  type Byte = x: int | 0 <= x < 256

  type Packet = seq<Byte>

  const QUEUESIZE: nat := 1024
  const HASHSIZE: nat := 4096

  // ------------------------------------------------------------ specification

  datatype Parsed = Parsed(packets: seq<Packet>, rest: seq<Byte>)

  function ReadSize(high: Byte, low: Byte): nat { 0x100 * high + low }

  /** The packets of a whole stream: two bytes of size, high byte first, before each. */
  function Parse(s: seq<Byte>): (r: Parsed)
    ensures |r.rest| <= |s|
    decreases |s|
  {
    if |s| < 2 || |s| - 2 < ReadSize(s[0], s[1]) then Parsed([], s)
    else
      var n := 2 + ReadSize(s[0], s[1]);
      var tail := Parse(s[n..]);
      Parsed([s[2..n]] + tail.packets, tail.rest)
  }

  /** write_size: the two bytes of a size; a size of 0x10000 does not fit them. */
  function WriteSize(n: nat): (r: seq<Byte>)
    ensures |r| == 2
    ensures n < 0x10000 ==> ReadSize(r[0], r[1]) == n
    ensures n == 0x10000 ==> ReadSize(r[0], r[1]) == 0
  {
    SizeDigits(n);
    [n / 0x100 % 0x100, n % 0x100]
  }

  lemma SizeDigits(n: nat)
    ensures n < 0x10000 ==> 0x100 * (n / 0x100 % 0x100) + n % 0x100 == n
  {
    var q, r := n / 0x100, n % 0x100;
    assert n == 0x100 * q + r;
    if n < 0x10000 { SmallMod(q); }
  }

  lemma SmallMod(q: nat)
    requires q <= 0x100
    ensures q % 0x100 == if q < 0x100 then q else 0
  {
  }

  lemma Regroup<T>(head: seq<T>, p: seq<T>, tail: seq<T>)
    ensures (head + p) + tail == head + (p + tail)
    ensures (head + (p + tail))[|head|..|head| + |p|] == p && (head + (p + tail))[|head| + |p|..] == tail
  {
  }

  /** A stream that starts with the size of packet `p` and with `p`. */
  lemma ParseFull(h: seq<Byte>, p: Packet, tail: seq<Byte>)
    requires |h| == 2 && |p| == ReadSize(h[0], h[1])
    ensures Parse(h + (p + tail)) == Parsed([p] + Parse(tail).packets, Parse(tail).rest)
  {
    Regroup(h, p, tail);
  }

  lemma ParseShort(h: seq<Byte>, data: seq<Byte>)
    requires |h| == 2 && |data| < ReadSize(h[0], h[1])
    ensures Parse(h + data) == Parsed([], h + data)
  {
  }

  lemma ParseLow(s: seq<Byte>)
    requires |s| < 2
    ensures Parse(s) == Parsed([], s)
  {
  }

  /** A stream starts with a packet when it has two bytes and as many more as they say, the high one
      first; the packet is those bytes, and what comes behind it is a stream again. */
  lemma StreamStarts(s: seq<Byte>)
    ensures Parse(s).packets == [] <==> |s| < 2 || |s| - 2 < 256 * (s[0] as nat) + s[1] as nat
    ensures Parse(s).packets == [] ==> Parse(s).rest == s
    ensures Parse(s).packets != [] ==>
      var n := 256 * (s[0] as nat) + s[1] as nat;
      Parse(s).packets == [s[2..2 + n]] + Parse(s[2 + n..]).packets && Parse(s).rest == Parse(s[2 + n..]).rest
  {
    hide Parse, ReadSize;
    if |s| < 2 {
      ParseLow(s);
    } else {
      var h, n := s[..2], 256 * (s[0] as nat) + s[1] as nat;
      SizeIs(s[0], s[1]);
      if |s| - 2 < n {
        Cut(s, 0);
        ParseShort(h, s[2..]);
      } else {
        Cut(s, n);
        ParseFull(h, s[2..2 + n], s[2 + n..]);
      }
    }
  }

  lemma SizeIs(high: Byte, low: Byte)
    ensures ReadSize(high, low) == 256 * (high as nat) + low as nat
  {
  }

  lemma Cut(s: seq<Byte>, n: nat)
    requires |s| - 2 >= n
    ensures s == s[..2] + s[2..] == s[..2] + (s[2..2 + n] + s[2 + n..])
  {
    assert s[2..] == s[2..2 + n] + s[2 + n..];
  }

  /** A stream is short, or starts with a packet. */
  lemma Split(s: seq<Byte>) returns (h: seq<Byte>, p: Packet, tail: seq<Byte>)
    ensures if Parse(s).packets == [] then Parse(s).rest == s
            else |h| == 2 && |p| == ReadSize(h[0], h[1]) && s == h + (p + tail)
  {
    h, p, tail := [], [], [];
    if Parse(s).packets != [] {
      var n := 2 + ReadSize(s[0], s[1]);
      h, p, tail := s[..2], s[2..n], s[n..];
    }
  }

  lemma {:induction false} ParseAppend(a: seq<Byte>, b: seq<Byte>)
    ensures Parse(a + b).packets == Parse(a).packets + Parse(Parse(a).rest + b).packets
    ensures Parse(a + b).rest == Parse(Parse(a).rest + b).rest
    decreases |a|
  {
    hide Parse;
    var h, p, tail := Split(a);
    if Parse(a).packets == [] {
      assert a + b == Parse(a).rest + b;
    } else {
      ParseAppend(tail, b);
      ParseAppendStep(h, p, tail, b);
    }
  }

  lemma ParseAppendStep(h: seq<Byte>, p: Packet, tail: seq<Byte>, b: seq<Byte>)
    requires |h| == 2 && |p| == ReadSize(h[0], h[1])
    ensures Parse(h + (p + tail)) == Parsed([p] + Parse(tail).packets, Parse(tail).rest)
    ensures Parse((h + (p + tail)) + b) == Parsed([p] + Parse(tail + b).packets, Parse(tail + b).rest)
  {
    hide Parse, ReadSize;
    ParseFull(h, p, tail);
    ParseFull(h, p, tail + b);
    Regroup(h, p + tail, b);
    Regroup(p, tail, b);
  }

  /** lpack: 0x10000 bytes are let through although their size does not fit the header. */
  function Pack(p: Packet): Option<seq<Byte>> {
    if |p| > 0x10000 then None else Some(WriteSize(|p|) + p)
  }

  /** The packed form: the number of bytes, the high byte first, and the bytes. */
  lemma PackedBytes(p: Packet)
    requires |p| < 0x10000
    ensures Pack(p).Some? && Pack(p).value == [|p| / 256, |p| % 256] + p
  {
    SmallMod(|p| / 0x100);
  }

  /** What comes out of a packed payload is that payload, exactly when its size fits. */
  lemma PackParse(p: Packet)
    requires Pack(p).Some?
    ensures Parse(Pack(p).value) == Parsed([p], []) <==> |p| < 0x10000
  {
    hide WriteSize, ReadSize, Parse;
    var h := WriteSize(|p|);
    assert |p| < 0x10000 ==> ReadSize(h[0], h[1]) == |p|;
    ParseLow([]);
    if |p| < 0x10000 {
      ParseFull(h, p, []);
      assert h + (p + []) == h + p;
    } else {
      ParseFull(h, [], p);
      assert h + ([] + p) == h + p;
      assert Parse(h + p).packets[0] == [];
    }
  }

  function PackAll(ps: seq<Packet>): seq<Byte>
    requires forall i :: 0 <= i < |ps| ==> |ps[i]| < 0x10000
  {
    if ps == [] then [] else PackAll(ps[..|ps| - 1]) + Pack(ps[|ps| - 1]).value
  }

  lemma {:induction false} PackAllParse(ps: seq<Packet>)
    requires forall i :: 0 <= i < |ps| ==> |ps[i]| < 0x10000
    ensures Parse(PackAll(ps)) == Parsed(ps, [])
  {
    hide Parse, WriteSize;
    if ps == [] {
      ParseLow([]);
    } else {
      var front, last := ps[..|ps| - 1], Pack(ps[|ps| - 1]).value;
      PackAllParse(front);
      ParseAppend(PackAll(front), last);
      PackParse(ps[|ps| - 1]);
      assert [] + last == last && ps == front + [ps[|ps| - 1]];
    }
  }

  // ------------------------------------------------------------------ records

  /** struct uncomplete; `buffer` holds the `read` bytes copied so far. */
  datatype Uncomplete = Uncomplete(id: nat, size: nat, read: int, header: Byte, buffer: seq<Byte>)

  datatype Netpack = Netpack(id: nat, buffer: Packet)

  predicate Sound(u: Uncomplete) {
    if u.read == -1 then true else 0 <= u.read == |u.buffer| <= u.size < 0x10000
  }

  /** The stream's bytes that a record stands for. */
  function Bytes(u: Uncomplete): (r: seq<Byte>)
    requires Sound(u)
    ensures r != []
  {
    if u.read == -1 then [u.header] else WriteSize(u.size) + u.buffer
  }

  function HashFd(fd: nat): (h: nat)
    ensures h < HASHSIZE
  {
    (fd / 0x100_0000 + fd / 0x1000 + fd) % 0x1_0000_0000 % HASHSIZE
  }

  ghost predicate ChainOk(c: seq<Uncomplete>, h: nat) {
    && (forall i :: 0 <= i < |c| ==> HashFd(c[i].id) == h && Sound(c[i]) && c[i].read < c[i].size)
    && (forall i, j :: 0 <= i < j < |c| ==> c[i].id != c[j].id)
  }

  ghost function Stored(c: seq<Uncomplete>, fd: nat): seq<Byte>
    requires forall i :: 0 <= i < |c| ==> Sound(c[i])
  {
    if c == [] then [] else if c[0].id == fd then Bytes(c[0]) else Stored(c[1..], fd)
  }

  lemma {:induction false} StoredAt(c: seq<Uncomplete>, fd: nat, i: nat)
    requires forall j :: 0 <= j < |c| ==> Sound(c[j])
    requires i <= |c| && (forall j :: 0 <= j < i ==> c[j].id != fd) && (i < |c| ==> c[i].id == fd)
    ensures Stored(c, fd) == if i < |c| then Bytes(c[i]) else []
  {
    if i > 0 {
      StoredAt(c[1..], fd, i - 1);
    }
  }

  lemma {:induction false} StoredWithout(c: seq<Uncomplete>, g: nat, i: nat)
    requires forall j :: 0 <= j < |c| ==> Sound(c[j])
    requires i < |c| && c[i].id != g
    ensures Stored(c[..i] + c[i + 1..], g) == Stored(c, g)
  {
    var d := c[..i] + c[i + 1..];
    if i == 0 {
      assert d == c[1..];
    } else {
      StoredWithout(c[1..], g, i - 1);
      assert d[1..] == c[1..][..i - 1] + c[1..][i..];
    }
  }

  /** Feeding a record whose size is known: it stays a record, or its packet is complete. */
  lemma FillShort(u: Uncomplete, chunk: seq<Byte>)
    requires Sound(u) && 0 <= u.read && |chunk| < u.size - u.read
    ensures var v := u.(buffer := u.buffer + chunk, read := u.read + |chunk|);
            Sound(v) && Parse(Bytes(u) + chunk) == Parsed([], Bytes(v))
  {
    hide WriteSize, ReadSize, Parse;
    var h := WriteSize(u.size);
    ParseShort(h, u.buffer + chunk);
    Regroup(h, u.buffer, chunk);
  }

  lemma FillUp(u: Uncomplete, left: seq<Byte>, tail: seq<Byte>)
    requires Sound(u) && 0 <= u.read && |left| == u.size - u.read
    ensures Parse(Bytes(u) + (left + tail)) == Parsed([u.buffer + left] + Parse(tail).packets, Parse(tail).rest)
  {
    hide WriteSize, ReadSize, Parse;
    var h := WriteSize(u.size);
    ParseFull(h, u.buffer + left, tail);
    Regroup(h, u.buffer, left + tail);
    Regroup(u.buffer, left, tail);
  }

  lemma SizeBytes(high: Byte, low: Byte)
    ensures ReadSize(high, low) < 0x10000 && WriteSize(ReadSize(high, low)) == [high, low]
  {
  }

  /** The size of a split header is known with the next byte. */
  lemma HeaderJoins(u: Uncomplete, chunk: seq<Byte>, n: nat)
    requires Sound(u) && u.read == -1 && chunk != []
    requires n < 0x10000 && WriteSize(n) == [u.header, chunk[0]]
    ensures var v := u.(size := n, buffer := [], read := 0);
            Sound(v) && Bytes(v) + chunk[1..] == Bytes(u) + chunk
  {
    hide WriteSize;
    assert [u.header] + chunk == [u.header, chunk[0]] + chunk[1..];
    assert WriteSize(n) + [] == WriteSize(n);
  }

  /** A new record for what a chunk leaves. */
  function Start(fd: nat, data: seq<Byte>): (u: Uncomplete)
    requires data != [] && (|data| >= 2 ==> |data| - 2 < ReadSize(data[0], data[1]))
    ensures Sound(u) && u.id == fd && u.read < u.size && Bytes(u) == data
  {
    if |data| == 1 then Uncomplete(fd, 0, -1, data[0], [])
    else
      var n := ReadSize(data[0], data[1]);
      assert WriteSize(n) == [data[0], data[1]];
      Uncomplete(fd, n, |data| - 2, 0, data[2..])
  }

  // ---------------------------------------------------------------- the queue

  datatype Event = Nothing | Data(fd: nat, buffer: Packet) | More

  function Tagged(fd: nat, ps: seq<Packet>): seq<Netpack> {
    seq(|ps|, i requires 0 <= i < |ps| => Netpack(fd, ps[i]))
  }

  /** What a chunk makes of the bytes `s` that its connection has then: nothing is complete, or the first
      packet goes out first, and its size is in the first two bytes, the high one first. */
  ghost predicate FirstOut(s: seq<Byte>, fd: nat, e: Event, before: seq<Netpack>, after: seq<Netpack>) {
    if |s| < 2 || |s| - 2 < 256 * (s[0] as nat) + s[1] as nat then e == Nothing && after == before
    else
      var first := s[2..2 + 256 * (s[0] as nat) + s[1] as nat];
      match e
      case Nothing => false
      case Data(g, p) => g == fd && p == first && after == before
      case More => before < after && after[|before|] == Netpack(fd, first)
  }

  lemma FirstOutIs(s: seq<Byte>, fd: nat, e: Event, before: seq<Netpack>, after: seq<Netpack>)
    requires var p := Parse(s);
             && (e.Nothing? <==> p.packets == []) && (e.Nothing? ==> after == before)
             && (e.Data? ==> e.fd == fd && p.packets == [e.buffer] && after == before)
             && (e.More? ==> after == before + Tagged(fd, p.packets))
    ensures FirstOut(s, fd, e, before, after)
  {
    hide Parse;
    StreamStarts(s);
    if Parse(s).packets != [] {
      assert Parse(s).packets[0] == s[2..2 + 256 * (s[0] as nat) + s[1] as nat];
      assert Tagged(fd, Parse(s).packets)[0] == Netpack(fd, Parse(s).packets[0]);
    }
  }

  lemma TaggedCons(c: seq<Netpack>, fd: nat, p: Packet, ps: seq<Packet>)
    ensures c + Tagged(fd, [p] + ps) == (c + [Netpack(fd, p)]) + Tagged(fd, ps)
  {
    assert Tagged(fd, [p] + ps) == [Netpack(fd, p)] + Tagged(fd, ps);
  }

  function Ring(a: seq<Netpack>, head: nat, tail: nat): seq<Netpack>
    requires head <= |a| && tail <= |a|
  {
    if head <= tail then a[head..tail] else a[head..] + a[..tail]
  }

  /** The slot at the head holds the oldest packet; the head goes round at the end of the ring. */
  lemma RingTake(a: seq<Netpack>, head: nat, tail: nat)
    requires head < |a| && tail < |a| && head != tail
    ensures Ring(a, head, tail) == [a[head]] + Ring(a, if head + 1 >= |a| then 0 else head + 1, tail)
  {
    if head < tail {
      assert a[head..tail] == [a[head]] + a[head + 1..tail];
    } else {
      assert a[head..] == [a[head]] + a[head + 1..];
      assert head + 1 == |a| ==> a[head..] + a[..tail] == [a[head]] + a[0..tail];
      assert ([a[head]] + a[head + 1..]) + a[..tail] == [a[head]] + (a[head + 1..] + a[..tail]);
    }
  }

  lemma RingEmpty(a: seq<Netpack>, head: nat)
    requires head <= |a|
    ensures Ring(a, head, head) == []
  {
  }

  class Queue {
    var cap: nat
    var head: nat
    var tail: nat
    var queue: array<Netpack>
    const hash: array<seq<Uncomplete>>

    ghost predicate Chains()
      reads hash
    {
      hash.Length == HASHSIZE && forall h :: 0 <= h < HASHSIZE ==> ChainOk(hash[h], h)
    }

    ghost predicate Valid()
      reads this, queue, hash
    {
      cap == queue.Length && head < cap && tail < cap && Chains()
    }

    /** The packets that wait to be popped. */
    ghost function Contents(): seq<Netpack>
      requires cap == queue.Length && head < cap && tail < cap
      reads this, queue
    {
      Ring(queue[..], head, tail)
    }

    /** The bytes of the connection's stream that belong to no complete packet yet. */
    ghost function Partial(fd: nat): seq<Byte>
      requires Chains()
      reads hash
    {
      assert ChainOk(hash[HashFd(fd)], HashFd(fd));
      Stored(hash[HashFd(fd)], fd)
    }

    constructor ()
      ensures Valid() && Contents() == [] && forall fd :: Partial(fd) == []
      ensures fresh(queue) && fresh(hash)
    {
      cap, head, tail := QUEUESIZE, 0, 0;
      queue := new Netpack[QUEUESIZE](_ => Netpack(0, []));
      hash := new seq<Uncomplete>[HASHSIZE](_ => []);
    }

    /** Takes the record out of its chain. */
    method FindUncomplete(fd: nat) returns (r: Option<Uncomplete>)
      requires Chains()
      modifies hash
      ensures Chains() && Partial(fd) == []
      ensures forall g :: g != fd ==> Partial(g) == old(Partial(g))
      ensures if r.Some? then Sound(r.value) && r.value.id == fd && r.value.read < r.value.size && old(Partial(fd)) == Bytes(r.value)
              else old(Partial(fd)) == []
    {
      hide HashFd, Bytes;
      var h := HashFd(fd);
      var c := hash[h];
      assert ChainOk(c, h);
      var i := 0;
      while i < |c| && c[i].id != fd
        invariant 0 <= i <= |c| && forall j :: 0 <= j < i ==> c[j].id != fd
      {
        i := i + 1;
      }
      StoredAt(c, fd, i);
      if i == |c| {
        return None;
      }
      r := Some(c[i]);
      var d := c[..i] + c[i + 1..];
      hash[h] := d;
      StoredAt(d, fd, |d|);
      forall g | g != fd ensures Partial(g) == old(Partial(g)) {
        StoredWithout(c, g, i);
      }
    }

    /** Puts a record at the head of its chain. */
    method SaveUncomplete(u: Uncomplete)
      requires Chains() && Partial(u.id) == [] && Sound(u) && u.read < u.size
      modifies hash
      ensures Chains() && Partial(u.id) == Bytes(u)
      ensures forall g :: g != u.id ==> Partial(g) == old(Partial(g))
    {
      var h := HashFd(u.id);
      var c := hash[h];
      assert ChainOk(c, h);
      forall i | 0 <= i < |c| ensures c[i].id != u.id { NotStored(c, u.id, i); }
      hash[h] := [u] + c;
      assert hash[h][1..] == c;
    }

    method ExpandQueue()
      requires cap == queue.Length > 0 && head == tail < cap
      modifies this
      ensures fresh(queue) && cap == queue.Length == old(cap) + QUEUESIZE && head == 0 && tail == old(cap)
      ensures queue[..tail] == old(queue[head..] + queue[..head])
    {
      var nq := new Netpack[cap + QUEUESIZE](_ => Netpack(0, []));
      var i := 0;
      while i < cap
        invariant 0 <= i <= cap == old(cap) && queue == old(queue) && head == old(head)
        invariant fresh(nq) && nq.Length == cap + QUEUESIZE
        invariant forall j :: 0 <= j < i ==> nq[j] == (queue[head..] + queue[..head])[j]
      {
        Around(head, i, cap);
        nq[i] := queue[(head + i) % cap];
        i := i + 1;
      }
      queue, head, tail, cap := nq, 0, cap, cap + QUEUESIZE;
    }

    method PushData(fd: nat, buffer: Packet)
      requires Valid()
      modifies this, queue
      ensures Valid() && (queue == old(queue) || fresh(queue))
      ensures Contents() == old(Contents()) + [Netpack(fd, buffer)]
      ensures hash[..] == old(hash[..])
    {
      ghost var before := Contents();
      queue[tail] := Netpack(fd, buffer);
      tail := tail + 1;
      if tail >= cap {
        tail := tail - cap;
      }
      if head == tail {
        ExpandQueue();
      }
    }

    /** What follows the packet that a chunk completes. */
    method PushMore(fd: nat, buffer: seq<Byte>)
      requires Valid() && Partial(fd) == [] && buffer != []
      modifies this, queue, hash
      ensures Valid() && (queue == old(queue) || fresh(queue))
      ensures Contents() == old(Contents()) + Tagged(fd, Parse(buffer).packets)
      ensures Partial(fd) == Parse(buffer).rest
      ensures forall g :: g != fd ==> Partial(g) == old(Partial(g))
      decreases |buffer|
    {
      hide ReadSize, WriteSize, HashFd, Bytes, Parse, Contents, Partial, Chains;
      if |buffer| == 1 {
        ParseLow(buffer);
        SaveUncomplete(Start(fd, buffer));
        return;
      }
      var size := ReadSize(buffer[0], buffer[1]);
      ghost var h := buffer[..2];
      var data := buffer[2..];
      assert buffer == h + data;
      if |data| < size {
        ParseShort(h, data);
        SaveUncomplete(Start(fd, buffer));
        return;
      }
      var p, tail := data[..size], data[size..];
      assert data == p + tail;
      ParseFull(h, p, tail);
      PushData(fd, p);
      TaggedCons(old(Contents()), fd, p, Parse(tail).packets);
      if tail != [] {
        PushMore(fd, tail);
      } else {
        ParseLow(tail);
      }
    }

    /** filter_data_: a chunk of one connection. */
    method FilterData(fd: nat, chunk: seq<Byte>) returns (e: Event)
      requires Valid() && chunk != []
      modifies this, queue, hash
      ensures Valid() && (queue == old(queue) || fresh(queue))
      ensures var p := Parse(old(Partial(fd)) + chunk);
              && Partial(fd) == p.rest
              && (e.Nothing? <==> p.packets == []) && (e.Nothing? ==> Contents() == old(Contents()))
              && (e.Data? ==> e.fd == fd && p.packets == [e.buffer] && Contents() == old(Contents()))
              && (e.More? ==> Contents() == old(Contents()) + Tagged(fd, p.packets))
      ensures FirstOut(old(Partial(fd)) + chunk, fd, e, old(Contents()), Contents())
      ensures forall g :: g != fd ==> Partial(g) == old(Partial(g))
    {
      hide Parse, Contents, Partial, Chains, Tagged, FirstOut;
      e := Filter(fd, chunk);
      FirstOutIs(old(Partial(fd)) + chunk, fd, e, old(Contents()), Contents());
    }

    /** Its branches. */
    method Filter(fd: nat, chunk: seq<Byte>) returns (e: Event)
      requires Valid() && chunk != []
      modifies this, queue, hash
      ensures Valid() && (queue == old(queue) || fresh(queue))
      ensures var p := Parse(old(Partial(fd)) + chunk);
              && Partial(fd) == p.rest
              && (e.Nothing? <==> p.packets == []) && (e.Nothing? ==> Contents() == old(Contents()))
              && (e.Data? ==> e.fd == fd && p.packets == [e.buffer] && Contents() == old(Contents()))
              && (e.More? ==> Contents() == old(Contents()) + Tagged(fd, p.packets))
      ensures forall g :: g != fd ==> Partial(g) == old(Partial(g))
    {
      hide ReadSize, WriteSize, HashFd, Bytes, Parse, Contents, Partial, Chains;
      var found := FindUncomplete(fd);
      if found.Some? {
        var uc := found.value;
        var buffer := chunk;
        if uc.read < 0 {
          SizeBytes(uc.header, buffer[0]);
          HeaderJoins(uc, buffer, ReadSize(uc.header, buffer[0]));
          uc := uc.(size := ReadSize(uc.header, buffer[0]), buffer := [], read := 0);
          buffer := buffer[1..];
        }
        assert Bytes(uc) + buffer == old(Partial(fd)) + chunk;
        e := FillRecord(uc, buffer);
      } else {
        assert old(Partial(fd)) + chunk == chunk;
        e := FreshChunk(fd, chunk);
      }
    }

    /** A chunk for a packet whose size is known. */
    method FillRecord(uc: Uncomplete, buffer: seq<Byte>) returns (e: Event)
      requires Valid() && Sound(uc) && uc.read >= 0 && Partial(uc.id) == []
      modifies this, queue, hash
      ensures Valid() && (queue == old(queue) || fresh(queue))
      ensures var p := Parse(Bytes(uc) + buffer);
              && Partial(uc.id) == p.rest
              && (e.Nothing? <==> p.packets == []) && (e.Nothing? ==> Contents() == old(Contents()))
              && (e.Data? ==> e.fd == uc.id && p.packets == [e.buffer] && Contents() == old(Contents()))
              && (e.More? ==> Contents() == old(Contents()) + Tagged(uc.id, p.packets))
      ensures forall g :: g != uc.id ==> Partial(g) == old(Partial(g))
    {
      hide ReadSize, WriteSize, HashFd, Bytes, Parse, Contents, Partial, Chains;
      var need := uc.size - uc.read;
      if |buffer| < need {
        FillShort(uc, buffer);
        SaveUncomplete(uc.(buffer := uc.buffer + buffer, read := uc.read + |buffer|));
        return Nothing;
      }
      var left, tail := buffer[..need], buffer[need..];
      assert buffer == left + tail;
      FillUp(uc, left, tail);
      e := Deliver(uc.id, uc.buffer + left, tail);
    }

    /** A chunk of a connection that has no record. */
    method FreshChunk(fd: nat, chunk: seq<Byte>) returns (e: Event)
      requires Valid() && chunk != [] && Partial(fd) == []
      modifies this, queue, hash
      ensures Valid() && (queue == old(queue) || fresh(queue))
      ensures var p := Parse(chunk);
              && Partial(fd) == p.rest
              && (e.Nothing? <==> p.packets == []) && (e.Nothing? ==> Contents() == old(Contents()))
              && (e.Data? ==> e.fd == fd && p.packets == [e.buffer] && Contents() == old(Contents()))
              && (e.More? ==> Contents() == old(Contents()) + Tagged(fd, p.packets))
      ensures forall g :: g != fd ==> Partial(g) == old(Partial(g))
    {
      hide ReadSize, WriteSize, HashFd, Bytes, Parse, Contents, Partial, Chains;
      if |chunk| == 1 {
        ParseLow(chunk);
        SaveUncomplete(Start(fd, chunk));
        return Nothing;
      }
      var size := ReadSize(chunk[0], chunk[1]);
      ghost var h := chunk[..2];
      var data := chunk[2..];
      assert chunk == h + data;
      if |data| < size {
        ParseShort(h, data);
        SaveUncomplete(Start(fd, chunk));
        return Nothing;
      }
      var p, tail := data[..size], data[size..];
      assert data == p + tail;
      ParseFull(h, p, tail);
      e := Deliver(fd, p, tail);
    }

    /** A complete packet is handed over directly when nothing follows it in its chunk. */
    method Deliver(fd: nat, p: Packet, tail: seq<Byte>) returns (e: Event)
      requires Valid() && Partial(fd) == []
      modifies this, queue, hash
      ensures Valid() && (queue == old(queue) || fresh(queue))
      ensures !e.Nothing? && Partial(fd) == Parse(tail).rest
      ensures e.Data? ==> e.fd == fd && e.buffer == p && Parse(tail).packets == [] && Contents() == old(Contents())
      ensures e.More? ==> Contents() == old(Contents()) + Tagged(fd, [p] + Parse(tail).packets)
      ensures forall g :: g != fd ==> Partial(g) == old(Partial(g))
    {
      hide ReadSize, WriteSize, HashFd, Bytes, Parse, Contents, Partial, Chains;
      if tail == [] {
        ParseLow(tail);
        return Data(fd, p);
      }
      PushData(fd, p);
      TaggedCons(old(Contents()), fd, p, Parse(tail).packets);
      PushMore(fd, tail);
      return More;
    }

    method CloseUncomplete(fd: nat)
      requires Valid()
      modifies hash
      ensures Valid() && Contents() == old(Contents()) && Partial(fd) == []
      ensures forall g :: g != fd ==> Partial(g) == old(Partial(g))
    {
      var _ := FindUncomplete(fd);
    }

    method Pop() returns (r: Option<Netpack>)
      requires Valid()
      modifies this`head
      ensures Valid()
      ensures if r.Some? then old(Contents()) == [r.value] + Contents() else old(Contents()) == [] == Contents()
    {
      hide Ring, Chains;
      if head == tail {
        RingEmpty(queue[..], head);
        return None;
      }
      RingTake(queue[..], head, tail);
      r := Some(queue[head]);
      head := head + 1;
      if head >= cap {
        head := 0;
      }
    }
  }

  lemma Around(head: nat, i: nat, cap: nat)
    requires head < cap && i < cap
    ensures (head + i) % cap == if head + i < cap then head + i else head + i - cap
  {
  }

  lemma {:induction false} NotStored(c: seq<Uncomplete>, fd: nat, i: nat)
    requires forall j :: 0 <= j < |c| ==> Sound(c[j])
    requires Stored(c, fd) == [] && i < |c|
    ensures c[i].id != fd
  {
    if i > 0 {
      NotStored(c[1..], fd, i - 1);
    }
  }

  // --------------------------------------------------------- the dispatch loop

  /** What the sockets report: a chunk of a connection, or its end (closed or failed). */
  datatype Message = Chunk(fd: nat, bytes: seq<Byte>) | Close(fd: nat)

  /** The byte streams of the connections that have used `fd`, one after another. */
  function Streams(msgs: seq<Message>, fd: nat): (r: seq<seq<Byte>>)
    ensures |r| > 0
  {
    if msgs == [] then [[]]
    else
      var r, m := Streams(msgs[..|msgs| - 1], fd), msgs[|msgs| - 1];
      if m.fd != fd then r
      else if m.Close? then r + [[]]
      else r[|r| - 1 := r[|r| - 1] + m.bytes]
  }

  /** The packets of whole streams. */
  function AllPackets(streams: seq<seq<Byte>>): seq<Packet> {
    if streams == [] then [] else AllPackets(streams[..|streams| - 1]) + Parse(streams[|streams| - 1]).packets
  }

  function Of(log: seq<Netpack>, fd: nat): seq<Packet> {
    if log == [] then []
    else Of(log[..|log| - 1], fd) + (if log[|log| - 1].id == fd then [log[|log| - 1].buffer] else [])
  }

  lemma {:induction false} OfAppend(a: seq<Netpack>, b: seq<Netpack>, fd: nat)
    ensures Of(a + b, fd) == Of(a, fd) + Of(b, fd)
  {
    if b == [] {
      assert a + b == a;
    } else {
      var front := b[..|b| - 1];
      OfAppend(a, front, fd);
      assert (a + b)[..|a + b| - 1] == a + front;
    }
  }

  lemma {:induction false} OfTagged(fd: nat, ps: seq<Packet>, g: nat)
    ensures Of(Tagged(fd, ps), g) == if g == fd then ps else []
  {
    if ps == [] {
    } else {
      var front := ps[..|ps| - 1];
      OfTagged(fd, front, g);
      assert Tagged(fd, ps)[..|ps| - 1] == Tagged(fd, front) && ps == front + [ps[|ps| - 1]];
    }
  }

  /** What the log and the partial packet of one connection have to be after the messages. */
  ghost predicate UpTo(msgs: seq<Message>, fd: nat, packets: seq<Packet>, partial: seq<Byte>) {
    var r := Streams(msgs, fd);
    packets == AllPackets(r) && partial == Parse(r[|r| - 1]).rest
  }

  lemma ChunkCounts(msgs: seq<Message>, m: Message, fd: nat, packets: seq<Packet>, partial: seq<Byte>)
    requires UpTo(msgs, fd, packets, partial)
    ensures m.fd != fd ==> UpTo(msgs + [m], fd, packets, partial)
    ensures m.fd == fd && m.Close? ==> UpTo(msgs + [m], fd, packets, [])
    ensures m.fd == fd && m.Chunk? ==>
              UpTo(msgs + [m], fd, packets + Parse(partial + m.bytes).packets, Parse(partial + m.bytes).rest)
  {
    hide Parse;
    assert (msgs + [m])[..|msgs|] == msgs;
    var r, r' := Streams(msgs, fd), Streams(msgs + [m], fd);
    var n := |r| - 1;
    if m.fd == fd && m.Close? {
      assert r'[..n + 1] == r;
      ParseLow([]);
    } else if m.fd == fd {
      assert r'[..n] == r[..n];
      ParseAppend(r[n], m.bytes);
      Regroup(AllPackets(r[..n]), Parse(r[n]).packets, Parse(partial + m.bytes).packets);
    }
  }

  /** The gate's loop: every message goes through the filter, and after `more` the queue is popped
      until it is empty. Each connection gets the packets of its own stream, in order, however
      the streams were cut and mixed. */
  method Dispatch(msgs: seq<Message>) returns (log: seq<Netpack>)
    requires forall i :: 0 <= i < |msgs| && msgs[i].Chunk? ==> msgs[i].bytes != []
    ensures forall fd :: Of(log, fd) == AllPackets(Streams(msgs, fd))
  {
    hide Parse, AllPackets, Streams, HashFd;
    var q := new Queue();
    log := [];
    forall fd: nat ensures UpTo([], fd, Of(log, fd), q.Partial(fd)) {
      NothingYet(fd);
    }
    var i := 0;
    while i < |msgs|
      invariant 0 <= i <= |msgs|
      invariant q.Valid() && q.Contents() == [] && fresh(q) && fresh(q.queue) && fresh(q.hash)
      invariant forall fd :: UpTo(msgs[..i], fd, Of(log, fd), q.Partial(fd))
    {
      log := DispatchOne(q, msgs[i], msgs[..i], log);
      assert msgs[..i + 1] == msgs[..i] + [msgs[i]];
      i := i + 1;
    }
    assert msgs[..i] == msgs;
  }

  lemma NothingYet(fd: nat)
    ensures UpTo([], fd, Of([], fd), [])
  {
    ParseLow([]);
    assert Streams([], fd)[..0] == [];
  }

  /** dispatch_queue: pops until the queue is empty. */
  method Drain(q: Queue, log: seq<Netpack>) returns (log': seq<Netpack>)
    requires q.Valid()
    modifies q`head
    ensures q.Valid() && q.Contents() == [] && log' == log + old(q.Contents())
  {
    hide Queue.Contents, Queue.Chains;
    log' := log;
    var p := q.Pop();
    while p.Some?
      invariant q.Valid() && (p.None? ==> q.Contents() == [])
      invariant log + old(q.Contents()) == if p.Some? then (log' + [p.value]) + q.Contents() else log'
      decreases |q.Contents()| + (if p.Some? then 1 else 0)
    {
      log' := log' + [p.value];
      p := q.Pop();
    }
  }

  method DispatchOne(q: Queue, m: Message, ghost before: seq<Message>, log: seq<Netpack>) returns (log': seq<Netpack>)
    requires m.Chunk? ==> m.bytes != []
    requires q.Valid() && q.Contents() == []
    requires forall fd :: UpTo(before, fd, Of(log, fd), q.Partial(fd))
    modifies q, q.queue, q.hash
    ensures q.Valid() && q.Contents() == [] && (q.queue == old(q.queue) || fresh(q.queue))
    ensures forall fd :: UpTo(before + [m], fd, Of(log', fd), q.Partial(fd))
  {
    hide Parse, AllPackets, Streams, HashFd, UpTo, Of, Queue.Contents, Queue.Partial, Queue.Chains;
    ghost var news: seq<Packet> := [];
    if m.Close? {
      q.CloseUncomplete(m.fd);
      log' := log;
      OfTagged(m.fd, news, m.fd);
      assert log' == log + Tagged(m.fd, news);
    } else {
      news := Parse(q.Partial(m.fd) + m.bytes).packets;
      var e := q.FilterData(m.fd, m.bytes);
      log' := log;
      if e.Data? {
        log' := log + [Netpack(e.fd, e.buffer)];
      }
      if e.More? {
        log' := Drain(q, log);
      }
      assert log' == log + Tagged(m.fd, news);
    }
    forall fd: nat ensures UpTo(before + [m], fd, Of(log', fd), q.Partial(fd)) {
      ChunkCounts(before, m, fd, Of(log, fd), old(q.Partial(fd)));
      OfAppend(log, Tagged(m.fd, news), fd);
      OfTagged(m.fd, news, fd);
      assert Of(log, fd) + [] == Of(log, fd);
    }
  }

  /** Packing and reading back: however the packed bytes of `ps` are cut, `ps` is delivered. */
  lemma PackedDelivered(msgs: seq<Message>, fd: nat, ps: seq<Packet>)
    requires forall i :: 0 <= i < |ps| ==> |ps[i]| < 0x10000
    requires Streams(msgs, fd) == [PackAll(ps)]
    ensures AllPackets(Streams(msgs, fd)) == ps
  {
    PackAllParse(ps);
    assert Streams(msgs, fd)[..0] == [];
  }
}
