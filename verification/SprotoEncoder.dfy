/** The loops of sproto_encode (lualib/sproto/sproto.c), writing in place into a buffer: records
    from the front, data behind room for the most records, integer arrays that are widened where
    they lie, and the data moved down at the end. Proved against SprotoCodec.dfy.

    The callback that fetches values from a Lua table (lualib/sproto/lsproto.c) is replaced by
    the message itself; the errors that it raises are -1 here.
 */
module SprotoEncoder {
  import opened Basics
  import opened LittleEndian
  import opened SprotoCodec
  import opened SprotoRoundTrip
  import opened SprotoLengths
  import opened SprotoDecoder

  // -------------------------------------------------------------------- memory

  ghost predicate Lies(a: seq<Byte>, at: int, b: seq<Byte>): (r: bool)
    ensures r ==> 0 <= at && at + |b| <= |a|
  {
    0 <= at && at + |b| <= |a| && a[at..at + |b|] == b
  }

  /** Only bytes of [lo, hi) differ. */
  ghost predicate Outside(a: seq<Byte>, b: seq<Byte>, lo: int, hi: int): (r: bool)
    ensures r ==> |a| == |b|
  {
    |a| == |b| && forall k :: 0 <= k < |a| && (k < lo || hi <= k) ==> a[k] == b[k]
  }

  lemma LiesStays(a: seq<Byte>, b: seq<Byte>, at: int, x: seq<Byte>, lo: int, hi: int)
    requires Lies(a, at, x) && Outside(a, b, lo, hi) && (at + |x| <= lo || hi <= at)
    ensures Lies(b, at, x)
  {
    assert a[at..at + |x|] == b[at..at + |x|];
  }

  lemma LiesJoin(a: seq<Byte>, at: int, x: seq<Byte>, y: seq<Byte>)
    ensures Lies(a, at, x + y) <==> Lies(a, at, x) && Lies(a, at + |x|, y)
  {
    if 0 <= at && at + |x| + |y| <= |a| {
      var s, t := a[at..at + |x|], a[at + |x|..at + |x| + |y|];
      assert a[at..at + |x| + |y|] == s + t;
      Cut(s, t);
      Cut(x, y);
    }
  }

  lemma LiesNothing(a: seq<Byte>, at: int)
    requires 0 <= at <= |a|
    ensures Lies(a, at, [])
  {
  }

  lemma OutsideSame(a: seq<Byte>, lo: int, hi: int)
    ensures Outside(a, a, lo, hi)
  {
  }

  lemma OutsideJoin(a: seq<Byte>, b: seq<Byte>, c: seq<Byte>, lo1: int, hi1: int, lo2: int, hi2: int, lo: int, hi: int)
    requires Outside(a, b, lo1, hi1) && Outside(b, c, lo2, hi2)
    requires lo <= lo1 && lo <= lo2 && hi1 <= hi && hi2 <= hi
    ensures Outside(a, c, lo, hi)
  {
  }

  lemma OutsideWider(a: seq<Byte>, b: seq<Byte>, lo1: int, hi1: int, lo: int, hi: int)
    requires Outside(a, b, lo1, hi1) && lo <= lo1 && hi1 <= hi
    ensures Outside(a, b, lo, hi)
  {
  }

  /** memcpy from a Lua string. */
  method PutBytes(buffer: array<Byte>, at: nat, s: seq<Byte>)
    requires at + |s| <= buffer.Length
    modifies buffer
    ensures Lies(buffer[..], at, s) && Outside(old(buffer[..]), buffer[..], at, at + |s|)
  {
    forall k | at <= k < at + |s| {
      buffer[k] := s[k - at];
    }
  }

  /** The shifts and masks that write a number of `k` bytes. */
  method PutNumber(buffer: array<Byte>, at: nat, n: nat, k: nat)
    requires at + k <= buffer.Length
    modifies buffer
    ensures Lies(buffer[..], at, LE(n, k)) && Outside(old(buffer[..]), buffer[..], at, at + k)
  {
    var i, rest := 0, n;
    LiesNothing(buffer[..], at);
    OutsideSame(buffer[..], at, at + k);
    assert LE(n, k) == [] + LE(n, k);
    ghost var done: seq<Byte> := [];
    while i < k
      invariant 0 <= i <= k && |done| == i && LE(n, k) == done + LE(rest, k - i)
      invariant Lies(buffer[..], at, done) && Outside(old(buffer[..]), buffer[..], at, at + k)
    {
      ghost var before := buffer[..];
      buffer[at + i] := rest % 256;
      ghost var low: seq<Byte> := [rest % 256];
      assert Lies(buffer[..], at + i, low);
      LiesStays(before, buffer[..], at, done, at + i, at + i + 1);
      LiesJoin(buffer[..], at, done, low);
      Assoc(done, low, LE(rest / 256, k - i - 1));
      done := done + low;
      rest := rest / 256;
      i := i + 1;
    }
    assert done + [] == done;
  }

  method FillSize(buffer: array<Byte>, at: nat, sz: nat) returns (r: nat)
    requires at + 4 <= buffer.Length
    modifies buffer
    ensures r == sz + 4
    ensures Lies(buffer[..], at, LE(sz, 4)) && Outside(old(buffer[..]), buffer[..], at, at + 4)
  {
    PutNumber(buffer, at, sz, 4);
    r := sz + 4;
  }

  /** The comparison of a C int with a size_t: a negative number is a very large one there. */
  predicate Lacks(size: int, n: nat) { 0 <= size < n }

  /** encode_integer (k == 4) and encode_uint64 (k == 8). */
  method EncodeNumber(v: nat, k: nat, buffer: array<Byte>, at: nat, size: int) returns (r: int)
    requires k == 4 || k == 8
    requires Lacks(size, 4 + k) || at + 4 + k <= buffer.Length
    modifies buffer
    ensures r < 0 <==> Lacks(size, 4 + k)
    ensures r < 0 ==> buffer[..] == old(buffer[..])
    ensures r >= 0 ==> r == 4 + k && Lies(buffer[..], at, Sized(LE(v, k))) && Outside(old(buffer[..]), buffer[..], at, at + 4 + k)
  {
    hide Lies, Outside, LE;
    if Lacks(size, 4 + k) {
      return -1;
    }
    ghost var a := buffer[..];
    PutNumber(buffer, at + 4, v, k);
    ghost var b := buffer[..];
    r := FillSize(buffer, at, k);
    LiesStays(b, buffer[..], at + 4, LE(v, k), at, at + 4);
    LiesJoin(buffer[..], at, LE(k, 4), LE(v, k));
    OutsideJoin(a, b, buffer[..], at + 4, at + 4 + k, at, at + 4, at, at + 4 + k);
  }

  lemma {:induction false} IntsAppend(ns: seq<int>, n: int, w: nat)
    requires w == 4 || w == 8
    ensures Ints(ns + [n], w) == Ints(ns, w) + LE(n % (if w == 4 then W32 else W64), w)
  {
    hide LE;
    var last := LE(n % (if w == 4 then W32 else W64), w);
    if ns == [] {
      assert [n][1..] == [];
      assert Ints([n], w) == last + Ints([], w) == last && [] + last == last;
    } else {
      IntsAppend(ns[1..], n, w);
      assert (ns + [n])[1..] == ns[1..] + [n];
      Assoc(LE(ns[0] % (if w == 4 then W32 else W64), w), Ints(ns[1..], w), last);
    }
  }

  function Fill(n: int): seq<Byte> { if n < 0 then [255, 255, 255, 255] else [0, 0, 0, 0] }

  /** uint32_to_uint64: four bytes of sign. */
  lemma WidenBytes(n: int)
    requires Short(n)
    ensures LE(n % W64, 8) == LE(n % W32, 4) + Fill(n)
    ensures LE(n % W32, 4)[3] >= 128 <==> n < 0
  {
    var u := n % W32;
    var high := if n < 0 then W32 - 1 else 0;
    assert n % W64 == u + high * W32;
    SplitLE(u, high);
    Digits(W32 - 1);
    assert LE(W32 - 1, 4) == [255, 255, 255, 255];
    assert LE(0, 4) == [0, 0, 0, 0];
    TopByte(u);
  }

  lemma SplitLE(low: nat, high: nat)
    requires low < W32
    ensures LE(low + high * W32, 8) == LE(low, 4) + LE(high, 4)
  {
    var a, b, c, d := low % 256, low / 256 % 256, low / 0x1_0000 % 256, low / 0x100_0000;
    Digits(low);
    var x := low + high * W32;
    var x1, x2, x3 := x / 256, x / 256 / 256, x / 256 / 256 / 256;
    assert x == a + 256 * (b + 256 * (c + 256 * (d + 256 * high)));
    assert x1 == b + 256 * (c + 256 * (d + 256 * high)) && x % 256 == a;
    assert x2 == c + 256 * (d + 256 * high) && x1 % 256 == b;
    assert x3 == d + 256 * high && x2 % 256 == c;
    assert x3 % 256 == d && x3 / 256 == high;
    assert LE(x, 8) == [a] + ([b] + ([c] + ([d] + LE(high, 4)))) by {
      assert LE(x3, 5) == [d] + LE(high, 4);
      assert LE(x2, 6) == [c] + LE(x3, 5);
      assert LE(x1, 7) == [b] + LE(x2, 6);
    }
  }

  lemma Digits(u: nat)
    requires u < W32
    ensures var a, b, c, d := u % 256, u / 256 % 256, u / 0x1_0000 % 256, u / 0x100_0000;
            u == a + 256 * (b + 256 * (c + 256 * d)) && d < 256 && LE(u, 4) == [a, b, c, d]
  {
    var u1 := u / 256;
    var u2 := u1 / 256;
    assert u2 == u / 0x1_0000 && u2 / 256 == u / 0x100_0000;
    assert LE(u2 / 256, 1) == [u2 / 256 % 256];
    assert LE(u2, 2) == [u2 % 256] + LE(u2 / 256, 1);
    assert LE(u1, 3) == [u1 % 256] + LE(u2, 2);
  }

  lemma TopByte(u: nat)
    requires u < W32
    ensures LE(u, 4)[3] >= 128 <==> u >= H31
  {
    Digits(u);
  }

  /** The rearrangement of an array of 32-bit numbers, from the last to the first: each number is
      copied to its new place and its sign spread over four more bytes. */
  method Widen(buffer: array<Byte>, at: nat, k: nat, ghost ns: seq<int>)
    requires |ns| == k && AllShort(ns) && at + 8 * k <= buffer.Length
    requires Lies(buffer[..], at, Ints(ns, 4))
    modifies buffer
    ensures Lies(buffer[..], at, Ints(ns, 8)) && Outside(old(buffer[..]), buffer[..], at, at + 8 * k)
  {
    hide Lies, Outside, LE, Ints;
    var i := k;
    assert ns[..k] == ns && ns[k..] == [];
    NoInts();
    LiesNothing(buffer[..], at + 8 * k);
    OutsideSame(buffer[..], at, at + 8 * k);
    while i > 0
      invariant 0 <= i <= k && |Ints(ns[..i], 4)| == 4 * i
      invariant Lies(buffer[..], at, Ints(ns[..i], 4)) && Lies(buffer[..], at + 8 * i, Ints(ns[i..], 8))
      invariant Outside(old(buffer[..]), buffer[..], at, at + 8 * k)
    {
      i := i - 1;
      ghost var e := ns[i];
      ghost var a := buffer[..];
      LastInt(a, at, ns, i);
      WidenOne(buffer, at + 8 * i, at + 4 * i, e);
      ghost var b := buffer[..];
      LiesStays(a, b, at, Ints(ns[..i], 4), at + 8 * i, at + 8 * i + 8);
      LiesStays(a, b, at + 8 * i + 8, Ints(ns[i + 1..], 8), at + 8 * i, at + 8 * i + 8);
      FirstInt(b, at + 8 * i, ns, i);
      OutsideJoin(old(buffer[..]), a, b, at, at + 8 * k, at + 8 * i, at + 8 * i + 8, at, at + 8 * k);
    }
    assert ns[0..] == ns;
  }

  method WidenOne(buffer: array<Byte>, to: nat, from: nat, ghost e: int)
    requires from <= to && to + 8 <= buffer.Length && Short(e) && Lies(buffer[..], from, LE(e % W32, 4))
    modifies buffer
    ensures Lies(buffer[..], to, LE(e % W64, 8)) && Outside(old(buffer[..]), buffer[..], to, to + 8)
  {
    hide Lies, Outside, LE;
    ghost var low := LE(e % W32, 4);
    WidenBytes(e);
    CopyFour(buffer, to, from, low);
    ghost var b := buffer[..];
    ByteAt(b, to, low, 3);
    var negative := buffer[to + 3] >= 0x80;
    PutBytes(buffer, to + 4, if negative then [255, 255, 255, 255] else [0, 0, 0, 0]);
    LiesStays(b, buffer[..], to, low, to + 4, to + 8);
    LiesJoin(buffer[..], to, low, Fill(e));
    OutsideJoin(old(buffer[..]), b, buffer[..], to, to + 4, to + 4, to + 8, to, to + 8);
  }

  lemma NoInts()
    ensures Ints([], 8) == [] && Ints([], 4) == []
  {
  }

  lemma LastInt(a: seq<Byte>, at: nat, ns: seq<int>, i: nat)
    requires i < |ns| && Lies(a, at, Ints(ns[..i + 1], 4))
    ensures Lies(a, at, Ints(ns[..i], 4)) && Lies(a, at + 4 * i, LE(ns[i] % W32, 4))
  {
    hide Lies, LE;
    assert ns[..i + 1] == ns[..i] + [ns[i]];
    IntsAppend(ns[..i], ns[i], 4);
    LiesJoin(a, at, Ints(ns[..i], 4), LE(ns[i] % W32, 4));
  }

  lemma FirstInt(a: seq<Byte>, at: nat, ns: seq<int>, i: nat)
    requires i < |ns| && Lies(a, at, LE(ns[i] % W64, 8)) && Lies(a, at + 8, Ints(ns[i + 1..], 8))
    ensures Lies(a, at, Ints(ns[i..], 8))
  {
    hide Lies, LE;
    assert ns[i..][0] == ns[i] && ns[i..][1..] == ns[i + 1..];
    LiesJoin(a, at, LE(ns[i] % W64, 8), Ints(ns[i + 1..], 8));
  }

  lemma ByteAt(a: seq<Byte>, at: nat, x: seq<Byte>, i: nat)
    requires Lies(a, at, x) && i < |x|
    ensures a[at + i] == x[i]
  {
    assert a[at..at + |x|][i] == x[i];
  }

  method CopyFour(buffer: array<Byte>, to: nat, from: nat, ghost x: seq<Byte>)
    requires from <= to && to + 4 <= buffer.Length && |x| == 4 && Lies(buffer[..], from, x)
    modifies buffer
    ensures Lies(buffer[..], to, x) && Outside(old(buffer[..]), buffer[..], to, to + 4)
  {
    ByteAt(buffer[..], from, x, 0);
    ByteAt(buffer[..], from, x, 1);
    ByteAt(buffer[..], from, x, 2);
    ByteAt(buffer[..], from, x, 3);
    buffer[to], buffer[to + 1], buffer[to + 2], buffer[to + 3] :=
      buffer[from], buffer[from + 1], buffer[from + 2], buffer[from + 3];
    assert buffer[..][to..to + 4] == x;
  }

  /** One more number of an array, in `width` bytes. */
  method PutInt(buffer: array<Byte>, at: nat, n: int, width: nat)
    requires (width == 4 && Short(n)) || (width == 8 && Long(n))
    requires at + width <= buffer.Length
    modifies buffer
    ensures Lies(buffer[..], at, LE(n % (if width == 4 then W32 else W64), width))
    ensures Outside(old(buffer[..]), buffer[..], at, at + width)
  {
    hide Lies, Outside, LE;
    if Short(n) {
      ghost var a := buffer[..];
      PutNumber(buffer, at, n % W32, 4);
      if width == 8 {
        ghost var b := buffer[..];
        WidenBytes(n);
        PutBytes(buffer, at + 4, if n < 0 then [255, 255, 255, 255] else [0, 0, 0, 0]);
        LiesStays(b, buffer[..], at, LE(n % W32, 4), at + 4, at + 8);
        LiesJoin(buffer[..], at, LE(n % W32, 4), Fill(n));
        OutsideJoin(a, b, buffer[..], at, at + 4, at + 4, at + 8, at, at + 8);
      }
    } else {
      PutNumber(buffer, at, n % W64, 8);
    }
  }

  lemma WidthNext(ns: seq<int>, n: int)
    ensures Width(ns + [n]) == if Width(ns) == 4 && Short(n) then 4 else 8
    ensures AllLong(ns + [n]) <==> AllLong(ns) && Long(n)
    ensures AllShort(ns + [n]) <==> AllShort(ns) && Short(n)
    ensures Width(ns) == 4 <==> AllShort(ns)
  {
    var ms := ns + [n];
    if AllShort(ms) {
      forall i | 0 <= i < |ns| ensures Short(ns[i]) { assert ms[i] == ns[i]; }
      assert ms[|ns|] == n;
    }
    if AllLong(ms) {
      forall i | 0 <= i < |ns| ensures Long(ns[i]) { assert ms[i] == ns[i]; }
      assert ms[|ns|] == n;
    }
  }

  /** The index of the first number that needs 64 bits. */
  function FirstWide(ns: seq<int>): (k: nat)
    ensures k <= |ns| && (k < |ns| ==> !Short(ns[k]))
    ensures forall i :: 0 <= i < k ==> Short(ns[i])
  {
    if ns == [] || !Short(ns[0]) then 0 else 1 + FirstWide(ns[1..])
  }

  /** Room for the numbers before the first wide one and for that number, but none for widening
      them: the room that is left becomes negative, and a negative room passes every test. */
  predicate Overruns(ns: seq<int>, size: int) {
    var k := FirstWide(ns);
    k < |ns| && size - 1 - 4 * k >= 8 && size - 1 - 8 * k < 0
  }

  /** The first wide number comes early, if at all. */
  predicate TameInts(ns: seq<int>) { FirstWide(ns) == |ns| || FirstWide(ns) < 3 }

  /** Exactly the arrays with three short numbers or more in front of the first wide one can be
      written past their room. */
  lemma TameIff(ns: seq<int>)
    ensures TameInts(ns) <==> forall size: int :: !Overruns(ns, size)
  {
    if !TameInts(ns) { assert Overruns(ns, 9 + 4 * FirstWide(ns)); }
  }

  /** The least room that the tests of an integer array ask for: eight bytes for each number,
      although only four are used for short ones. */
  function Ask(ns: seq<int>): nat {
    if ns == [] then 1 else if FirstWide(ns) == |ns| then 5 + 4 * |ns| else 1 + 8 * |ns|
  }

  lemma WidthIs(ns: seq<int>, k: nat)
    requires k <= |ns|
    ensures Width(ns[..k]) == if k <= FirstWide(ns) then 4 else 8
  {
    var w := FirstWide(ns);
    if w < k { assert ns[..k][w] == ns[w]; }
  }

  /** One more number behind the others. */
  method AddInt(buffer: array<Byte>, at: nat, n: int, width: nat, k: nat, ghost done: seq<int>)
    requires (width == 4 && Short(n)) || (width == 8 && Long(n))
    requires k == |done| && at + width * k + width <= buffer.Length && Lies(buffer[..], at, Ints(done, width))
    modifies buffer
    ensures Lies(buffer[..], at, Ints(done + [n], width))
    ensures Outside(old(buffer[..]), buffer[..], at + width * k, at + width * k + width)
  {
    hide Lies, Outside, LE, Ints;
    ghost var b := buffer[..];
    PutInt(buffer, at + width * k, n, width);
    LiesStays(b, buffer[..], at, Ints(done, width), at + width * k, at + width * k + width);
    IntsAppend(done, n, width);
    LiesJoin(buffer[..], at, Ints(done, width), LE(n % (if width == 4 then W32 else W64), width));
  }

  /** The arithmetic of the loop before number `k`: the width, and the room that is left. */
  ghost predicate Counting(ns: seq<int>, size: nat, k: nat, intlen: nat, left: int) {
    && 1 <= size && k <= |ns|
    && if k <= FirstWide(ns) then intlen == 4 && left == size - 1 - 4 * k && left >= (if k == 0 then 0 else 4)
       else intlen == 8 && left == size - 1 - 8 * k && (left >= 0 || Overruns(ns, size))
  }

  /** The tests at number `k`: a failure means that too little room was given; otherwise there is
      memory for the number, in the room or behind it. */
  lemma TestNumber(ns: seq<int>, size: nat, room: nat, k: nat, intlen: nat, left: int)
    requires Counting(ns, size, k, intlen, left) && k < |ns|
    requires size <= room && (Overruns(ns, size) ==> 1 + 8 * |ns| <= room)
    ensures intlen == (if k <= FirstWide(ns) then 4 else 8) && (intlen == 4 && !Short(ns[k]) <==> k == FirstWide(ns))
    ensures Lacks(left, 8) ==> !Overruns(ns, size) && size < Ask(ns)
    ensures k == FirstWide(ns) && !Lacks(left, 8) && Lacks(left - 4 * k, 8) ==> !Overruns(ns, size) && size < Ask(ns)
    ensures !Lacks(left, 8) && (k == FirstWide(ns) ==> !Lacks(left - 4 * k, 8)) ==>
      var width := if k < FirstWide(ns) then 4 else 8;
      && 1 + width * k + width <= room
      && Counting(ns, size, k + 1, width, if k == FirstWide(ns) then left - 4 * k - 8 else left - width)
  {
    hide FirstWide;
    FirstWideIs(ns, k);
  }

  lemma FirstWideIs(ns: seq<int>, k: nat)
    requires k < |ns|
    ensures k < FirstWide(ns) ==> Short(ns[k])
    ensures k == FirstWide(ns) ==> !Short(ns[k])
  {
  }

  lemma AllCounted(ns: seq<int>, size: nat, intlen: nat, left: int)
    requires Counting(ns, size, |ns|, intlen, left)
    ensures Overruns(ns, size) || Ask(ns) <= size
    ensures ns != [] ==> (1 + intlen * |ns| <= size <==> !Overruns(ns, size))
    ensures ns == [] ==> !Overruns(ns, size)
  {
    hide FirstWide;
  }

  /** One turn of the loop. */
  method AddNumber(ns: seq<int>, k: nat, intlen0: nat, left0: int, buffer: array<Byte>, at: nat, ghost size: nat, ghost room: nat)
    returns (ok: bool, intlen: nat, left: int)
    requires Counting(ns, size, k, intlen0, left0) && k < |ns| && intlen0 == Width(ns[..k]) && AllLong(ns[..k])
    requires size <= room && at + room <= buffer.Length && (Overruns(ns, size) ==> 1 + 8 * |ns| <= room)
    requires Lies(buffer[..], at + 1, Ints(ns[..k], intlen0))
    modifies buffer
    ensures Outside(old(buffer[..]), buffer[..], at, at + room)
    ensures !ok ==> !AllLong(ns) || (!Overruns(ns, size) && size < Ask(ns))
    ensures ok ==> Counting(ns, size, k + 1, intlen, left) && intlen == Width(ns[..k + 1]) && AllLong(ns[..k + 1])
    ensures ok ==> Lies(buffer[..], at + 1, Ints(ns[..k + 1], intlen))
  {
    hide Lies, Outside, LE, Ints, Width, AllLong, AllShort, Long, Short, FirstWide, Overruns, Counting, Ask;
    ghost var done, a := ns[..k], buffer[..];
    var n := ns[k];
    intlen, left := intlen0, left0;
    OutsideSame(a, at, at + room);
    assert ns[..k + 1] == done + [n];
    WidthNext(done, n);
    OneIsNotLong(ns, k);
    ShortIsLong(n);
    TestNumber(ns, size, room, k, intlen, left);
    if !Long(n) || Lacks(left, 8) {
      return false, intlen, left;
    }
    if intlen == 4 && !Short(n) {
      left := left - 4 * k;
      if Lacks(left, 8) {
        return false, intlen, left;
      }
      Widen(buffer, at + 1, k, done);
      OutsideWider(a, buffer[..], at + 1, at + 1 + 8 * k, at, at + room);
      intlen := 8;
    }
    ghost var b := buffer[..];
    AddInt(buffer, at + 1, n, intlen, k, done);
    OutsideJoin(a, b, buffer[..], at, at + room, at + 1 + intlen * k, at + 1 + intlen * k + intlen, at, at + room);
    left := left - intlen;
    ok := true;
  }

  /** encode_integer_array: the number of bytes, 0 for an array without elements. `room` is the
      memory that there is; the array stays inside `size` bytes exactly if it does not overrun. */
  method EncodeIntegerArray(ns: seq<int>, buffer: array<Byte>, at: nat, size: nat, ghost room: nat) returns (r: int)
    requires size <= room && at + room <= buffer.Length && (Overruns(ns, size) ==> 1 + 8 * |ns| <= room)
    modifies buffer
    ensures Outside(old(buffer[..]), buffer[..], at, at + room)
    ensures r >= 0 <==> AllLong(ns) && (Overruns(ns, size) || Ask(ns) <= size)
    ensures r >= 0 ==> if ns == [] then r == 0
                       else r == 1 + Width(ns) * |ns| && Lies(buffer[..], at, [Width(ns)] + Ints(ns, Width(ns)))
    ensures r >= 0 ==> (r <= size <==> !Overruns(ns, size))
  {
    hide Lies, Outside, LE, Ints, Width, AllLong, AllShort, Long, Short, FirstWide, Overruns, Counting, Ask;
    OutsideSame(buffer[..], at, at + room);
    NoRoom(ns, size);
    if size < 1 {
      return -1;
    }
    var intlen: nat, left: int, k: nat := 4, size - 1, 0;
    LiesNothing(buffer[..], at + 1);
    NoInts();
    assert ns[..0] == [];
    NoNumbers();
    while k < |ns|
      invariant 0 <= k <= |ns| && Counting(ns, size, k, intlen, left) && intlen == Width(ns[..k]) && AllLong(ns[..k])
      invariant Lies(buffer[..], at + 1, Ints(ns[..k], intlen)) && Outside(old(buffer[..]), buffer[..], at, at + room)
    {
      ghost var a := buffer[..];
      var ok;
      ok, intlen, left := AddNumber(ns, k, intlen, left, buffer, at, size, room);
      OutsideJoin(old(buffer[..]), a, buffer[..], at, at + room, at, at + room, at, at + room);
      if !ok {
        return -1;
      }
      k := k + 1;
    }
    assert ns[..k] == ns;
    AllCounted(ns, size, intlen, left);
    if k == 0 {
      return 0;
    }
    ghost var c := buffer[..];
    PutBytes(buffer, at, [intlen]);
    LiesStays(c, buffer[..], at + 1, Ints(ns, intlen), at, at + 1);
    LiesJoin(buffer[..], at, [intlen], Ints(ns, intlen));
    OutsideJoin(old(buffer[..]), c, buffer[..], at, at + room, at, at + 1, at, at + room);
    r := 1 + intlen * k;
  }

  lemma NoRoom(ns: seq<int>, size: nat)
    ensures size < 1 ==> !Overruns(ns, size) && size < Ask(ns)
    ensures size >= 1 ==> Counting(ns, size, 0, 4, size - 1)
  {
  }

  /** Three small numbers and one that needs 64 bits, with room for 21 to 24 bytes: 33 bytes are
      written. */
  method LateWideNumber(buffer: array<Byte>, size: nat) returns (r: int)
    requires 21 <= size <= 24 && buffer.Length == 33
    modifies buffer
    ensures Overruns([0, 0, 0, 0x100_0000_0000], size)
    ensures r == 33 && buffer[25..] == LE(0x100_0000_0000, 8)
  {
    hide Lies, LE, Ints;
    var ns := [0, 0, 0, 0x100_0000_0000];
    assert ns[1..] == [0, 0, 0x100_0000_0000] && ns[1..][1..] == [0, 0x100_0000_0000] && ns[1..][1..][1..] == [0x100_0000_0000];
    assert FirstWide(ns) == 3;
    assert !Short(ns[3]) && Width(ns) == 8;
    r := EncodeIntegerArray(ns, buffer, 0, size, 33);
    IntsAppend(ns[..3], ns[3], 8);
    assert ns == ns[..3] + [ns[3]];
    LiesJoin(buffer[..], 0, [8], Ints(ns, 8));
    LiesJoin(buffer[..], 1, Ints(ns[..3], 8), LE(ns[3] % W64, 8));
    LastBytes(buffer[..], 25, LE(ns[3] % W64, 8));
  }

  lemma LastBytes(a: seq<Byte>, at: nat, b: seq<Byte>)
    requires Lies(a, at, b) && at + |b| == |a|
    ensures a[at..] == b
  {
  }

  lemma NoNumbers()
    ensures Width([]) == 4 && AllLong([]) && AllShort([])
  {
  }

  lemma OneIsNotLong(ns: seq<int>, k: nat)
    requires k < |ns|
    ensures !Long(ns[k]) ==> !AllLong(ns)
  {
  }

  lemma ShortIsLong(n: int)
    ensures Short(n) ==> Long(n)
  {
  }

  /** Booleans, one byte each. */
  method EncodeBools(bs: seq<bool>, buffer: array<Byte>, at: nat, size: nat) returns (r: int)
    requires at + size <= buffer.Length
    modifies buffer
    ensures Outside(old(buffer[..]), buffer[..], at, at + size)
    ensures r < 0 <==> size < |bs|
    ensures r >= 0 ==> r == |bs| && Lies(buffer[..], at, Bools(bs))
  {
    var i := 0;
    while i < |bs|
      invariant 0 <= i <= |bs| && i <= size
      invariant forall k :: at <= k < at + i ==> buffer[k] == Bools(bs)[k - at]
      invariant Outside(old(buffer[..]), buffer[..], at, at + size)
    {
      if size - i < 1 {
        return -1;
      }
      buffer[at + i] := if bs[i] then 1 else 0;
      i := i + 1;
    }
    assert buffer[..][at..at + i] == Bools(bs);
    r := i;
  }

  lemma {:induction false} StrsAppend(ss: seq<seq<Byte>>, s: seq<Byte>)
    ensures Strs(ss + [s]) == Strs(ss) + Sized(s)
  {
    hide Sized;
    if ss == [] {
      assert [s][1..] == [];
      assert Strs([s]) == Sized(s) + Strs([]) == Sized(s) && [] + Sized(s) == Sized(s);
    } else {
      StrsAppend(ss[1..], s);
      assert (ss + [s])[1..] == ss[1..] + [s];
      Assoc(Sized(ss[0]), Strs(ss[1..]), Sized(s));
    }
  }

  lemma {:induction false} StrsPrefix(ss: seq<seq<Byte>>, k: nat)
    requires k < |ss|
    ensures |Strs(ss[..k])| + 4 + |ss[k]| <= |Strs(ss)|
    decreases |ss| - k
  {
    hide Strs;
    StrsAppend(ss[..k], ss[k]);
    assert ss[..k + 1] == ss[..k] + [ss[k]];
    if k + 1 < |ss| { StrsPrefix(ss, k + 1); } else { assert ss[..k + 1] == ss; }
  }

  /** A block and its length, when it fits. */
  method PutSized(s: seq<Byte>, buffer: array<Byte>, at: nat)
    requires at + 4 + |s| <= buffer.Length
    modifies buffer
    ensures Lies(buffer[..], at, Sized(s)) && Outside(old(buffer[..]), buffer[..], at, at + 4 + |s|)
  {
    hide Lies, Outside, LE;
    PutBytes(buffer, at + 4, s);
    ghost var b := buffer[..];
    var _ := FillSize(buffer, at, |s|);
    LiesStays(b, buffer[..], at + 4, s, at, at + 4);
    LiesJoin(buffer[..], at, LE(|s|, 4), s);
    OutsideJoin(old(buffer[..]), b, buffer[..], at + 4, at + 4 + |s|, at, at + 4, at, at + 4 + |s|);
  }

  /** An array of strings: room for a length is asked for once more than there are strings. */
  method EncodeStrings(ss: seq<seq<Byte>>, buffer: array<Byte>, at: nat, size: nat) returns (r: int)
    requires at + size <= buffer.Length
    modifies buffer
    ensures Outside(old(buffer[..]), buffer[..], at, at + size)
    ensures r < 0 <==> size < |Strs(ss)| + 4
    ensures r >= 0 ==> r == |Strs(ss)| && Lies(buffer[..], at, Strs(ss))
  {
    hide Lies, Outside, Strs, Sized;
    var k, used := 0, 0;
    OutsideSame(buffer[..], at, at + size);
    assert ss[..0] == [];
    NoStrs();
    LiesNothing(buffer[..], at);
    while true
      invariant 0 <= k <= |ss| && used == |Strs(ss[..k])| <= size
      invariant Lies(buffer[..], at, Strs(ss[..k])) && Outside(old(buffer[..]), buffer[..], at, at + size)
      decreases |ss| - k
    {
      assert k == |ss| ==> ss[..k] == ss;
      if k < |ss| { StrsPrefix(ss, k); }
      if size - used < 4 {
        return -1;
      }
      if k == |ss| {
        return used;
      }
      if |ss[k]| > size - used - 4 {
        return -1;
      }
      ghost var a := buffer[..];
      PutSized(ss[k], buffer, at + used);
      StrsAppend(ss[..k], ss[k]);
      assert ss[..k + 1] == ss[..k] + [ss[k]];
      LiesStays(a, buffer[..], at, Strs(ss[..k]), at + used, at + used + 4 + |ss[k]|);
      LiesJoin(buffer[..], at, Strs(ss[..k]), Sized(ss[k]));
      OutsideJoin(old(buffer[..]), a, buffer[..], at, at + size, at + used, at + used + 4 + |ss[k]|, at, at + size);
      used := used + 4 + |ss[k]|;
      k := k + 1;
    }
  }

  lemma NoStrs()
    ensures Strs([]) == []
  {
  }

  // ----------------------------------------------------------- how much is enough

  function Max(a: nat, b: nat): nat { if a < b then b else a }

  /** The bytes that a field adds to the data. */
  function DataLen(part: Part): nat { if part.Block? then 4 + |part.bytes| else 0 }

  function MsgLen(types: Schema, t: nat, m: Msg): nat {
    if t < |types| && EncMsg(types, t, m).Some? then |EncMsg(types, t, m).value| else 0
  }

  /** The room that the tests on the way ask for, which can be more than what is written: the data
      starts behind room for all records, and a list asks for one more length. */
  function NeedValue(types: Schema, f: Field, v: Value): nat
    decreases v, 0
  {
    match v
    case IntV(n) => DataLen(EncValue(types, f, v))
    case BoolV(_) => 0
    case StrV(s) => 4 + |s|
    case MsgV(m) => 4 + (if f.ty.TStruct? then NeedMsg(types, f.ty.sub, m) else 0)
    case IntsV(ns) => 4 + Ask(ns)
    case BoolsV(bs) => 4 + |bs|
    case StrsV(ss) => 8 + |Strs(ss)|
    case MsgsV(_) => 4 + (if f.ty.TStruct? then NeedMsgs(types, f.ty.sub, v, 0) else 0)
  }

  function NeedMsgs(types: Schema, t: nat, v: Value, i: nat): nat
    requires v.MsgsV? && i <= |v.ms|
    decreases v, 0, |v.ms| - i
  {
    if i == |v.ms| then 4
    else 4 + Max(NeedMsg(types, t, v.ms[i]), MsgLen(types, t, v.ms[i]) + NeedMsgs(types, t, v, i + 1))
  }

  function NeedFields(types: Schema, fs: seq<Field>, i: nat, m: Msg): nat
    requires i <= |fs|
    decreases m, 1, |fs| - i
  {
    if i == |fs| then 0
    else
      match Get(m, fs[i].tag)
      case None => NeedFields(types, fs, i + 1, m)
      case Some(v) =>
        Max(NeedValue(types, fs[i], v), DataLen(EncValue(types, fs[i], v)) + NeedFields(types, fs, i + 1, m))
  }

  function NeedMsg(types: Schema, t: nat, m: Msg): nat
    decreases m, 2
  {
    if t < |types| then 2 + 2 * Slots(types[t], 0) + NeedFields(types, types[t], 0, m) else 0
  }

  /** No integer array in the value can be written past its room, whatever the room is. */
  predicate TameValue(v: Value)
    decreases v
  {
    match v
    case IntsV(ns) => TameInts(ns)
    case MsgV(m) => TameMsg(m)
    case MsgsV(ms) => forall i :: 0 <= i < |ms| ==> TameMsg(ms[i])
    case _ => true
  }

  predicate TameMsg(m: Msg)
    decreases m
  {
    forall i :: 0 <= i < |m.entries| ==> TameValue(m.entries[i].value)
  }

  lemma {:induction false} TameGet(m: Msg, tag: nat, i: nat)
    requires TameMsg(m) && i <= |m.entries|
    ensures Lookup(m, tag, i).Some? ==> TameValue(Lookup(m, tag, i).value)
    decreases |m.entries| - i
  {
    if i < |m.entries| { TameGet(m, tag, i + 1); }
  }

  /** The memory suffices: it is all that is asked for, or the value stays inside its room. The C
      int `size` can be negative behind an array that did not. */
  ghost predicate Spacious(size: int, room: nat, need: nat, tame: bool) {
    size <= room && ((tame && 0 <= size) || need <= room)
  }

  lemma {:induction false} ValueFits(types: Schema, f: Field, v: Value)
    requires Valid(types)
    ensures DataLen(EncValue(types, f, v)) <= NeedValue(types, f, v)
    decreases v, 0
  {
    match v
    case MsgV(m) => if EncValue(types, f, v).Block? { MessageFits(types, f.ty.sub, m); }
    case MsgsV(_) => if EncValue(types, f, v).Block? { MessagesFit(types, f.ty.sub, v, 0); }
    case IntsV(ns) => WidthIs(ns, |ns|); assert ns[..|ns|] == ns;
    case _ =>
  }

  lemma {:induction false} MessagesFit(types: Schema, t: nat, v: Value, i: nat)
    requires Valid(types) && t < |types| && v.MsgsV? && i <= |v.ms| && EncMsgs(types, t, v, i).Some?
    ensures |EncMsgs(types, t, v, i).value| + 4 <= NeedMsgs(types, t, v, i)
    decreases v, 0, |v.ms| - i
  {
    if i < |v.ms| { MessagesFit(types, t, v, i + 1); }
  }

  lemma {:induction false} FieldsFit(types: Schema, fs: seq<Field>, i: nat, last: int, m: Msg)
    requires Valid(types) && i <= |fs| && EncFields(types, fs, i, last, m).Some?
    ensures |EncFields(types, fs, i, last, m).value.data| <= NeedFields(types, fs, i, m)
    decreases m, 1, |fs| - i
  {
    hide EncValue, NeedValue, Valid;
    if i < |fs| {
      var f := fs[i];
      var part := match Get(m, f.tag) case None => Absent case Some(v) => EncValue(types, f, v);
      FieldsFit(types, fs, i + 1, if part.Absent? then last else f.tag, m);
    }
  }

  lemma {:induction false} MessageFits(types: Schema, t: nat, m: Msg)
    requires Valid(types) && t < |types| && EncMsg(types, t, m).Some?
    ensures |EncMsg(types, t, m).value| <= NeedMsg(types, t, m)
    decreases m, 2
  {
    TypeOf(types, t);
    RecordsFit(types, types[t], 0, -1, m);
    FieldsFit(types, types[t], 0, -1, m);
  }

  // ----------------------------------------------------------------- one field

  /** What the encoding of a field's value leaves in the buffer. A failure has one of two causes:
      a value that does not fit the field, or too little room. */
  ghost predicate Encoded(part: Part, need: nat, tame: bool, sz: int, value: nat, size: int, after: seq<Byte>, at: int) {
    if sz < 0 then part.Bad? || size < need
    else
      && (tame && 0 <= size ==> need <= size)
      && match part
         case Bad => false
         case Absent => sz == 0
         case Inline(n) => sz > 0 && value == n
         case Block(b) => sz == 4 + |b| && value == 0 && Lies(after, at, Sized(b))
  }

  /** encode_object with the callback for strings and nested messages. */
  method EncodeObject(types: seq<SprotoType>, f: Field, v: Value, buffer: array<Byte>, at: nat, size: int, ghost room: nat) returns (sz: int)
    requires AllImported(types) && Valid(SchemaOf(types)) && at + room <= buffer.Length
    requires !f.many && (f.ty.TString? || (f.ty.TStruct? && f.ty.sub < |types|))
    requires Spacious(size, room, NeedValue(SchemaOf(types), f, v), TameValue(v))
    modifies buffer
    ensures Outside(old(buffer[..]), buffer[..], at, at + room)
    ensures Encoded(EncValue(SchemaOf(types), f, v), NeedValue(SchemaOf(types), f, v), TameValue(v), sz, 0, size, buffer[..], at)
    decreases v, 1
  {
    hide Lies, Outside, LE, EncMsg, NeedMsg, Imported, Valid, TameMsg;
    OutsideSame(buffer[..], at, at + room);
    if f.ty.TString? {
      if !v.StrV? || size < 4 || |v.s| > size - 4 {
        return -1;
      }
      PutSized(v.s, buffer, at);
      OutsideWider(old(buffer[..]), buffer[..], at, at + 4 + |v.s|, at, at + room);
      return 4 + |v.s|;
    }
    if !v.MsgV? || size < 4 {
      return -1;
    }
    ghost var a := buffer[..];
    sz := SprotoEncode(types, f.ty.sub, v.m, buffer, at + 4, size - 4, room - 4);
    ghost var b := buffer[..];
    OutsideWider(a, b, at + 4, at + room, at, at + room);
    if sz <= 0 {
      return sz;
    }
    ghost var bytes := EncMsg(SchemaOf(types), f.ty.sub, v.m).value;
    sz := FillSize(buffer, at, sz);
    LiesStays(b, buffer[..], at + 4, bytes, at, at + 4);
    LiesJoin(buffer[..], at, LE(|bytes|, 4), bytes);
    OutsideJoin(a, b, buffer[..], at, at + room, at, at + 4, at, at + room);
  }

  ghost function FrontBytes(a: seq<Byte>, r: Option<seq<Byte>>): Option<seq<Byte>> {
    match r case None => None case Some(b) => Some(a + b)
  }

  lemma EncMsgsStep(types: Schema, t: nat, v: Value, k: nat, out: seq<Byte>)
    requires t < |types| && v.MsgsV? && k < |v.ms|
    ensures EncMsg(types, t, v.ms[k]).None? ==> FrontBytes(out, EncMsgs(types, t, v, k)) == None
    ensures EncMsg(types, t, v.ms[k]).Some? ==>
      FrontBytes(out, EncMsgs(types, t, v, k)) ==
      FrontBytes(out + Sized(EncMsg(types, t, v.ms[k]).value), EncMsgs(types, t, v, k + 1))
    ensures NeedMsgs(types, t, v, k) == 4 + Max(NeedMsg(types, t, v.ms[k]), MsgLen(types, t, v.ms[k]) + NeedMsgs(types, t, v, k + 1))
    ensures NeedMsgs(types, t, v, k) >= 4
  {
    hide EncMsg, NeedMsg, MsgLen;
    if EncMsg(types, t, v.ms[k]).Some? && EncMsgs(types, t, v, k + 1).Some? {
      Assoc(out, Sized(EncMsg(types, t, v.ms[k]).value), EncMsgs(types, t, v, k + 1).value);
    }
  }

  lemma EncMsgsEnds(types: Schema, t: nat, v: Value, out: seq<Byte>)
    requires t < |types| && v.MsgsV?
    ensures FrontBytes(out, EncMsgs(types, t, v, |v.ms|)) == Some(out)
    ensures FrontBytes([], EncMsgs(types, t, v, 0)) == EncMsgs(types, t, v, 0)
    ensures NeedMsgs(types, t, v, |v.ms|) == 4
  {
    assert out + [] == out;
    if EncMsgs(types, t, v, 0).Some? { NothingFirst(EncMsgs(types, t, v, 0).value); }
  }

  /** An array of messages. */
  method EncodeMessages(types: seq<SprotoType>, t: nat, v: Value, buffer: array<Byte>, at: nat, size: nat, ghost room: nat) returns (r: int)
    requires AllImported(types) && Valid(SchemaOf(types)) && at + room <= buffer.Length && t < |types| && v.MsgsV?
    requires Spacious(size, room, NeedMsgs(SchemaOf(types), t, v, 0), TameValue(v))
    modifies buffer
    ensures Outside(old(buffer[..]), buffer[..], at, at + room)
    ensures r < 0 ==> EncMsgs(SchemaOf(types), t, v, 0) == None || size < NeedMsgs(SchemaOf(types), t, v, 0)
    ensures r >= 0 ==> EncMsgs(SchemaOf(types), t, v, 0).Some?
    ensures r >= 0 && TameValue(v) ==> NeedMsgs(SchemaOf(types), t, v, 0) <= size
    ensures r >= 0 ==> var b := EncMsgs(SchemaOf(types), t, v, 0).value; r == |b| && Lies(buffer[..], at, b)
    decreases v, 0
  {
    hide Lies, Outside, LE, EncMsg, NeedMsg, Sized, FrontBytes, EncMsgs, NeedMsgs, Imported, Valid, TameMsg;
    ghost var schema, tame := SchemaOf(types), TameValue(v);
    ghost var need := NeedMsgs(schema, t, v, 0);
    var k, used := 0, 0;
    ghost var out: seq<Byte> := [];
    OutsideSame(buffer[..], at, at + room);
    LiesNothing(buffer[..], at);
    EncMsgsEnds(schema, t, v, []);
    while true
      invariant 0 <= k <= |v.ms| && used == |out| <= room
      invariant Lies(buffer[..], at, out) && Outside(old(buffer[..]), buffer[..], at, at + room)
      invariant EncMsgs(schema, t, v, 0) == FrontBytes(out, EncMsgs(schema, t, v, k))
      invariant used + NeedMsgs(schema, t, v, k) <= need
      invariant tame ==> used <= size && (used + NeedMsgs(schema, t, v, k) <= size ==> need <= size)
      decreases |v.ms| - k
    {
      EncMsgsEnds(schema, t, v, out);
      if k < |v.ms| { EncMsgsStep(schema, t, v, k, out); }
      if size - used < 4 {
        return -1;
      }
      if k == |v.ms| {
        return used;
      }
      ghost var a := buffer[..];
      var sz := SprotoEncode(types, t, v.ms[k], buffer, at + used + 4, size - used - 4, room - used - 4);
      ghost var b := buffer[..];
      OutsideJoin(old(buffer[..]), a, b, at, at + room, at + used + 4, at + room, at, at + room);
      if sz < 0 {
        return -1;
      }
      MessageFits(schema, t, v.ms[k]);
      ghost var bytes := EncMsg(schema, t, v.ms[k]).value;
      var _ := FillSize(buffer, at + used, sz);
      LiesStays(a, b, at, out, at + used + 4, at + room);
      LiesStays(b, buffer[..], at, out, at + used, at + used + 4);
      LiesStays(b, buffer[..], at + used + 4, bytes, at + used, at + used + 4);
      SizedLies(buffer[..], at + used, bytes);
      LiesJoin(buffer[..], at, out, Sized(bytes));
      OutsideJoin(old(buffer[..]), b, buffer[..], at, at + room, at + used, at + used + 4, at, at + room);
      out := out + Sized(bytes);
      used := used + 4 + sz;
      k := k + 1;
    }
  }

  lemma SizedLies(a: seq<Byte>, at: int, s: seq<Byte>)
    requires Lies(a, at, LE(|s|, 4)) && Lies(a, at + 4, s)
    ensures Lies(a, at, Sized(s))
  {
    hide Lies, LE;
    LiesJoin(a, at, LE(|s|, 4), s);
  }

  /** encode_array */
  method EncodeArray(types: seq<SprotoType>, f: Field, v: Value, buffer: array<Byte>, at: nat, size: int, ghost room: nat) returns (sz: int)
    requires AllImported(types) && Valid(SchemaOf(types)) && at + room <= buffer.Length
    requires f.many && (f.ty.TStruct? ==> f.ty.sub < |types|)
    requires Spacious(size, room, NeedValue(SchemaOf(types), f, v), TameValue(v))
    modifies buffer
    ensures Outside(old(buffer[..]), buffer[..], at, at + room)
    ensures Encoded(EncValue(SchemaOf(types), f, v), NeedValue(SchemaOf(types), f, v), TameValue(v), sz, 0, size, buffer[..], at)
    decreases v, 1
  {
    hide Lies, Outside, LE, EncMsgs, NeedMsgs, Imported, Valid, Ints, Strs, Bools, Width, FirstWide, TameMsg, Overruns, TameInts;
    OutsideSame(buffer[..], at, at + room);
    if size < 4 {
      return -1;
    }
    ghost var a := buffer[..];
    ghost var block: seq<Byte> := [];
    match f.ty {
      case TInteger =>
        if !v.IntsV? { return -1; }
        TameOrEnough(v.ns, size - 4, room - 4);
        sz := EncodeIntegerArray(v.ns, buffer, at + 4, size - 4, room - 4);
        if v.ns != [] { block := [Width(v.ns)] + Ints(v.ns, Width(v.ns)); }
      case TBoolean =>
        if !v.BoolsV? { return -1; }
        sz := EncodeBools(v.bs, buffer, at + 4, size - 4);
        OutsideWider(a, buffer[..], at + 4, at + size, at + 4, at + room);
        block := Bools(v.bs);
      case TString =>
        if !v.StrsV? { return -1; }
        sz := EncodeStrings(v.ss, buffer, at + 4, size - 4);
        OutsideWider(a, buffer[..], at + 4, at + size, at + 4, at + room);
        block := Strs(v.ss);
        StrsNotEmpty(v.ss);
      case TStruct(t) =>
        if !v.MsgsV? { return -1; }
        sz := EncodeMessages(types, t, v, buffer, at + 4, size - 4, room - 4);
        if sz >= 0 {
          block := EncMsgs(SchemaOf(types), t, v, 0).value;
          MsgsNotEmpty(SchemaOf(types), t, v);
        }
    }
    OutsideWider(a, buffer[..], at + 4, at + room, at, at + room);
    if sz > 0 {
      sz := SizeBlock(buffer, at, sz, block, a, room);
    }
  }

  /** The size in front of a block that is there already. */
  method SizeBlock(buffer: array<Byte>, at: nat, sz: nat, ghost block: seq<Byte>, ghost a: seq<Byte>, ghost room: nat) returns (r: nat)
    requires at + 4 <= buffer.Length && sz == |block| && Lies(buffer[..], at + 4, block)
    requires Outside(a, buffer[..], at, at + room) && room >= 4
    modifies buffer
    ensures r == 4 + sz && Lies(buffer[..], at, Sized(block)) && Outside(a, buffer[..], at, at + room)
  {
    hide Lies, Outside, LE;
    ghost var b := buffer[..];
    r := FillSize(buffer, at, sz);
    LiesStays(b, buffer[..], at + 4, block, at, at + 4);
    SizedLies(buffer[..], at, block);
    OutsideJoin(a, b, buffer[..], at, at + room, at, at + 4, at, at + room);
  }

  lemma TameOrEnough(ns: seq<int>, size: int, room: int)
    ensures TameInts(ns) ==> !Overruns(ns, size)
    ensures Overruns(ns, size) ==> size < Ask(ns) == 1 + 8 * |ns|
  {
  }

  lemma MsgsNotEmpty(types: Schema, t: nat, v: Value)
    requires t < |types| && v.MsgsV? && EncMsgs(types, t, v, 0).Some?
    ensures EncMsgs(types, t, v, 0).value == [] <==> v.ms == []
  {
  }

  /** The value of one field, which is not nil: `value` is what goes into its record, 0 if the
      value is a block. */
  method EncodeValue(types: seq<SprotoType>, f: Field, v: Value, buffer: array<Byte>, at: nat, size: int, ghost room: nat)
    returns (sz: int, value: nat)
    requires AllImported(types) && Valid(SchemaOf(types)) && at + room <= buffer.Length
    requires f.ty.TStruct? ==> f.ty.sub < |types|
    requires Spacious(size, room, NeedValue(SchemaOf(types), f, v), TameValue(v))
    modifies buffer
    ensures Outside(old(buffer[..]), buffer[..], at, at + room)
    ensures Encoded(EncValue(SchemaOf(types), f, v), NeedValue(SchemaOf(types), f, v), TameValue(v), sz, value, size, buffer[..], at)
    decreases v, 2
  {
    hide Lies, Outside, LE, Imported, Valid, Sized;
    OutsideSame(buffer[..], at, at + room);
    value := 0;
    if f.many {
      sz := EncodeArray(types, f, v, buffer, at, size, room);
    } else {
      match f.ty
      case TInteger =>
        if !v.IntV? || !Long(v.n) {
          return -1, 0;
        }
        if Short(v.n) {
          if v.n % W32 < 0x7fff {
            value := (v.n % W32 + 1) * 2;
            sz := 2;
          } else {
            sz := EncodeNumber(v.n % W32, 4, buffer, at, size);
            if sz >= 0 { OutsideWider(old(buffer[..]), buffer[..], at, at + 8, at, at + room); }
          }
        } else {
          sz := EncodeNumber(v.n % W64, 8, buffer, at, size);
          if sz >= 0 { OutsideWider(old(buffer[..]), buffer[..], at, at + 12, at, at + room); }
        }
      case TBoolean =>
        if !v.BoolV? {
          return -1, 0;
        }
        value := ((if v.b then 1 else 0) + 1) * 2;
        sz := 2;
      case TString => sz := EncodeObject(types, f, v, buffer, at, size, room);
      case TStruct(_) => sz := EncodeObject(types, f, v, buffer, at, size, room);
    }
  }

  // ------------------------------------------------------------- the whole message

  /** The body so far in front of the fields that are still to come. */
  ghost function Combined(records: seq<nat>, data: seq<Byte>, body: Option<Body>): Option<Body> {
    match body case None => None case Some(b) => Some(Body(records + b.records, data + b.data))
  }

  lemma CombinedStarts(body: Option<Body>)
    ensures Combined([], [], body) == body
  {
    if body.Some? {
      NothingFirst(body.value.records);
      NothingFirst(body.value.data);
    }
  }

  lemma CombinedEnds(records: seq<nat>, data: seq<Byte>)
    ensures Combined(records, data, Some(Body([], []))) == Some(Body(records, data))
  {
    assert records + [] == records && data + [] == data;
  }

  lemma CombinedNext(records: seq<nat>, data: seq<Byte>, gap: int, record: nat, more: seq<Byte>, body: Option<Body>)
    requires gap > 0 ==> (gap - 1) * 2 + 1 <= 0xffff
    ensures Combined(records, data, Prepend(gap, record, more, body)) == Combined(records + Skip(gap) + [record], data + more, body)
  {
    if body.Some? {
      Assoc(Skip(gap), [record], body.value.records);
      Assoc(records, Skip(gap), [record] + body.value.records);
      Assoc(records + Skip(gap), [record], body.value.records);
      Assoc(data, more, body.value.data);
    }
  }

  lemma {:induction false} WordsAppend(ws: seq<nat>, w: nat)
    ensures Words(ws + [w]) == Words(ws) + LE(w, 2)
  {
    hide LE;
    if ws == [] {
      assert [w][1..] == [];
      assert Words([w]) == LE(w, 2) + Words([]) == LE(w, 2) && [] + LE(w, 2) == LE(w, 2);
    } else {
      WordsAppend(ws[1..], w);
      assert (ws + [w])[1..] == ws[1..] + [w];
      Assoc(LE(ws[0], 2), Words(ws[1..]), LE(w, 2));
    }
  }

  /** One more record behind the others. */
  method PutRecord(buffer: array<Byte>, at: nat, ghost records: seq<nat>, index: nat, w: nat)
    requires index == |records| && at + 2 * index + 2 <= buffer.Length && Lies(buffer[..], at, Words(records))
    modifies buffer
    ensures Lies(buffer[..], at, Words(records + [w]))
    ensures Outside(old(buffer[..]), buffer[..], at + 2 * index, at + 2 * index + 2)
  {
    hide Lies, Outside, LE, Words;
    ghost var a := buffer[..];
    PutNumber(buffer, at + 2 * index, w, 2);
    LiesStays(a, buffer[..], at, Words(records), at + 2 * index, at + 2 * index + 2);
    WordsAppend(records, w);
    LiesJoin(buffer[..], at, Words(records), LE(w, 2));
  }

  /** The records of a field that has a value: the tags to skip, then the value. */
  method PutRecords(buffer: array<Byte>, at: nat, ghost records: seq<nat>, index0: nat, gap: int, value: nat) returns (index: nat)
    requires index0 == |records| && (gap > 0 ==> (gap - 1) * 2 + 1 <= 0xffff)
    requires at + 2 * (index0 + (if gap > 0 then 2 else 1)) <= buffer.Length && Lies(buffer[..], at, Words(records))
    modifies buffer
    ensures index == index0 + (if gap > 0 then 2 else 1) == |records + Skip(gap) + [value]|
    ensures Lies(buffer[..], at, Words(records + Skip(gap) + [value]))
    ensures Outside(old(buffer[..]), buffer[..], at + 2 * index0, at + 2 * index)
  {
    hide Lies, Outside, LE, Words;
    ghost var a := buffer[..];
    index := index0;
    if gap > 0 {
      PutRecord(buffer, at, records, index, (gap - 1) * 2 + 1);
      index := index + 1;
    } else {
      assert records + Skip(gap) == records;
      OutsideSame(a, at + 2 * index0, at + 2 * index0);
    }
    ghost var b := buffer[..];
    PutRecord(buffer, at, records + Skip(gap), index, value);
    index := index + 1;
    OutsideJoin(a, b, buffer[..], at + 2 * index0, at + 2 * index - 2, at + 2 * index - 2, at + 2 * index, at + 2 * index0, at + 2 * index);
  }

  /** memmove of the data down to the records. */
  method MoveDown(buffer: array<Byte>, to: nat, from: nat, n: nat, ghost data: seq<Byte>)
    requires to <= from && |data| == n && Lies(buffer[..], from, data)
    modifies buffer
    ensures Lies(buffer[..], to, data) && Outside(old(buffer[..]), buffer[..], to, from + n)
  {
    ghost var b := buffer[..];
    assert b[from..from + n] == data;
    var i := 0;
    while i < n
      invariant 0 <= i <= n
      invariant forall k :: to <= k < to + i ==> buffer[k] == data[k - to]
      invariant forall k :: 0 <= k < buffer.Length && (k < to || to + i <= k) ==> buffer[k] == b[k]
    {
      assert b[from + i] == b[from..from + n][i];
      buffer[to + i] := buffer[from + i];
      i := i + 1;
    }
    assert buffer[..][to..to + n] == data;
  }

  ghost function PartOf(types: Schema, f: Field, v: Option<Value>): Part {
    match v case None => Absent case Some(x) => EncValue(types, f, x)
  }

  lemma NextField(types: Schema, fs: seq<Field>, i: nat, last: int, m: Msg, records: seq<nat>, data: seq<Byte>)
    requires i < |fs|
    ensures var part := PartOf(types, fs[i], Get(m, fs[i].tag));
            var gap := fs[i].tag - last - 1;
            var whole := Combined(records, data, EncFields(types, fs, i, last, m));
            var rest := EncFields(types, fs, i + 1, if part.Absent? then last else fs[i].tag, m);
            && (part.Bad? ==> whole == None)
            && (part.Absent? ==> whole == Combined(records, data, rest))
            && (!part.Bad? && !part.Absent? && gap > 0 && (gap - 1) * 2 + 1 > 0xffff ==> whole == None)
            && (part.Inline? && (gap > 0 ==> (gap - 1) * 2 + 1 <= 0xffff) ==>
                  whole == Combined(records + Skip(gap) + [part.n], data, rest))
            && (part.Block? && (gap > 0 ==> (gap - 1) * 2 + 1 <= 0xffff) ==>
                  whole == Combined(records + Skip(gap) + [0], data + Sized(part.bytes), rest))
    ensures NeedFields(types, fs, i, m) ==
            Max(if Get(m, fs[i].tag).Some? then NeedValue(types, fs[i], Get(m, fs[i].tag).value) else 0,
                DataLen(PartOf(types, fs[i], Get(m, fs[i].tag))) + NeedFields(types, fs, i + 1, m))
  {
    hide EncValue, NeedValue, Sized;
    var part := PartOf(types, fs[i], Get(m, fs[i].tag));
    var gap := fs[i].tag - last - 1;
    var rest := EncFields(types, fs, i + 1, if part.Absent? then last else fs[i].tag, m);
    if gap > 0 ==> (gap - 1) * 2 + 1 <= 0xffff {
      if part.Inline? {
        CombinedNext(records, data, gap, part.n, [], rest);
        assert data + [] == data;
      } else if part.Block? {
        CombinedNext(records, data, gap, 0, Sized(part.bytes), rest);
      }
    }
  }

  /** A present field has at most two records, and they have been counted in `maxn`. */
  lemma RecordsCounted(fs: seq<Field>, i: nat, last: int)
    requires i < |fs| && last <= Prev(fs, i)
    ensures var extra := if last < Prev(fs, i) then 1 else 0;
            && Slots(fs, i) + extra >= Slots(fs, i + 1) + (if fs[i].tag - last - 1 > 0 then 2 else 1)
            && Slots(fs, i) >= Slots(fs, i + 1) + 1
            && Prev(fs, i + 1) == fs[i].tag
  {
  }

  lemma TypeIs(types: seq<SprotoType>, t: nat)
    requires AllImported(types) && Valid(SchemaOf(types)) && t < |types|
    ensures types[t].f == SchemaOf(types)[t] && types[t].maxn == Slots(types[t].f, 0) < W16
  {
    TypeOf(SchemaOf(types), t);
    MaxnFits(types[t].f, |types|);
  }

  lemma FieldType(types: seq<SprotoType>, t: nat, i: nat)
    requires Valid(SchemaOf(types)) && t < |types| && i < |types[t].f|
    ensures types[t].f[i].ty.TStruct? ==> types[t].f[i].ty.sub < |types|
    ensures Prev(types[t].f, i) < types[t].f[i].tag
  {
    TypeOf(SchemaOf(types), t);
  }

  lemma LiesNoWords(a: seq<Byte>, at: int)
    requires 0 <= at <= |a|
    ensures Lies(a, at, Words([]))
  {
  }

  lemma EncodedMeans(part: Part, need: nat, tame: bool, sz: int, value: nat, size: int, after: seq<Byte>, at: int)
    requires Encoded(part, need, tame, sz, value, size, after, at)
    ensures sz < 0 ==> part.Bad? || size < need
    ensures sz >= 0 && tame && 0 <= size ==> need <= size
    ensures sz == 0 ==> part.Absent?
    ensures sz > 0 ==> part == Inline(value) || part.Block?
    ensures sz > 0 && part.Block? ==> value == 0 && sz == |Sized(part.bytes)| && Lies(after, at, Sized(part.bytes))
  {
  }

  lemma FieldsEnd(types: Schema, fs: seq<Field>, last: int, m: Msg)
    ensures EncFields(types, fs, |fs|, last, m) == Some(Body([], []))
  {
  }

  /** The count of records, and the data moved down to them. */
  method Finish(buffer: array<Byte>, at: nat, maxn: nat, index: nat, used: nat, ghost records: seq<nat>, ghost data: seq<Byte>) returns (r: nat)
    requires index == |records| <= maxn && used == |data| && at + 2 + 2 * maxn + used <= buffer.Length
    requires Lies(buffer[..], at + 2, Words(records)) && Lies(buffer[..], at + 2 + 2 * maxn, data)
    modifies buffer
    ensures r == 2 + 2 * index + used && Lies(buffer[..], at, Assemble(Body(records, data)))
    ensures Outside(old(buffer[..]), buffer[..], at, at + 2 + 2 * maxn + used)
  {
    hide Lies, Outside, LE, Words;
    ghost var a := buffer[..];
    PutNumber(buffer, at, index, 2);
    ghost var b := buffer[..];
    LiesStays(a, b, at + 2, Words(records), at, at + 2);
    LiesStays(a, b, at + 2 + 2 * maxn, data, at, at + 2);
    var to, from := at + 2 + 2 * index, at + 2 + 2 * maxn;
    if index != maxn {
      MoveDown(buffer, to, from, used, data);
    } else {
      OutsideSame(b, to, from + used);
    }
    Assembled(b, buffer[..], at, records, data, to, from + used);
    OutsideJoin(a, b, buffer[..], at, at + 2, to, from + used, at, from + used);
    r := 2 + index * 2 + used;
  }

  lemma Assembled(b: seq<Byte>, c: seq<Byte>, at: nat, records: seq<nat>, data: seq<Byte>, to: nat, end: nat)
    requires Lies(b, at, LE(|records|, 2)) && Lies(b, at + 2, Words(records))
    requires Outside(b, c, to, end) && to == at + 2 + 2 * |records| && Lies(c, to, data)
    ensures Lies(c, at, Assemble(Body(records, data)))
  {
    hide Lies, Outside, LE, Words;
    LiesStays(b, c, at, LE(|records|, 2), to, end);
    LiesStays(b, c, at + 2, Words(records), to, end);
    LiesJoin(c, at + 2, Words(records), data);
    LiesJoin(c, at, LE(|records|, 2), Words(records) + data);
  }

  /** The loop of sproto_encode before field `i`: `records` and `data` are what the buffer holds,
      and there is still room for all records that can follow. */
  ghost predicate Filling(types: Schema, t: nat, m: Msg, a: seq<Byte>, at: nat, size: nat, room: nat, i: nat, last: int,
                          records: seq<nat>, data: seq<Byte>)
  {
    && t < |types| && i <= |types[t]|
    && var fs := types[t];
    && var maxn := Slots(fs, 0);
    && var used := 2 + 2 * maxn + |data|;
    && -1 <= last <= Prev(fs, i) && 2 + 2 * maxn <= size && used <= room && at + room <= |a|
    && Spacious(size, room, NeedMsg(types, t, m), TameMsg(m))
    && |records| + Slots(fs, i) + (if last < Prev(fs, i) then 1 else 0) <= maxn
    && used + NeedFields(types, fs, i, m) <= NeedMsg(types, t, m)
    && (TameMsg(m) ==> used <= size && (used + NeedFields(types, fs, i, m) <= size ==> NeedMsg(types, t, m) <= size))
    && EncFields(types, fs, 0, -1, m) == Combined(records, data, EncFields(types, fs, i, last, m))
    && Lies(a, at + 2, Words(records)) && Lies(a, at + 2 + 2 * maxn, data)
  }

  lemma FillingStarts(types: Schema, t: nat, m: Msg, a: seq<Byte>, at: nat, size: nat, room: nat)
    requires t < |types| && 2 + 2 * Slots(types[t], 0) <= size && at + room <= |a|
    requires Spacious(size, room, NeedMsg(types, t, m), TameMsg(m))
    ensures Filling(types, t, m, a, at, size, room, 0, -1, [], [])
  {
    hide EncFields, NeedFields, Combined, Slots, TameMsg;
    CombinedStarts(EncFields(types, types[t], 0, -1, m));
    LiesNothing(a, at + 2 + 2 * Slots(types[t], 0));
    LiesNoWords(a, at + 2);
  }

  /** A field that adds nothing. */
  lemma FillingSkips(types: Schema, t: nat, m: Msg, a: seq<Byte>, b: seq<Byte>, at: nat, size: nat, room: nat, i: nat, last: int,
                     records: seq<nat>, data: seq<Byte>)
    requires Valid(types) && Filling(types, t, m, a, at, size, room, i, last, records, data) && i < |types[t]|
    requires Outside(a, b, at + 2 + 2 * Slots(types[t], 0) + |data|, at + room)
    requires PartOf(types, types[t][i], Get(m, types[t][i].tag)).Absent?
    requires Get(m, types[t][i].tag).Some? && TameMsg(m) ==>
      2 + 2 * Slots(types[t], 0) + |data| + NeedValue(types, types[t][i], Get(m, types[t][i].tag).value) <= size
    ensures Filling(types, t, m, b, at, size, room, i + 1, last, records, data)
  {
    hide EncFields, NeedFields, NeedMsg, Combined, Slots, Lies, Outside, Words, Valid, EncValue, NeedValue, TameMsg;
    var fs, h := types[t], at + 2 + 2 * Slots(types[t], 0);
    NextField(types, fs, i, last, m, records, data);
    RecordsCounted(fs, i, last);
    Step(types, t, i);
    LiesStays(a, b, at + 2, Words(records), h + |data|, at + room);
    LiesStays(a, b, h, data, h + |data|, at + room);
  }

  /** A value has been encoded behind the data; `more` is what it added there. */
  ghost predicate Added(part: Part, value: nat, more: seq<Byte>) {
    (part == Inline(value) && more == []) || (part.Block? && value == 0 && more == Sized(part.bytes))
  }

  /** A field that adds records: the buffer `b` has its data, `c` its records as well. */
  lemma FillingGrows(types: Schema, t: nat, m: Msg, a: seq<Byte>, b: seq<Byte>, c: seq<Byte>, at: nat, size: nat, room: nat,
                     i: nat, last: int, records: seq<nat>, data: seq<Byte>, value: nat, more: seq<Byte>)
    requires Valid(types) && Filling(types, t, m, a, at, size, room, i, last, records, data) && i < |types[t]|
    requires Get(m, types[t][i].tag).Some? && Added(EncValue(types, types[t][i], Get(m, types[t][i].tag).value), value, more)
    requires TameMsg(m) ==>
      2 + 2 * Slots(types[t], 0) + |data| + NeedValue(types, types[t][i], Get(m, types[t][i].tag).value) <= size
    requires
      var gap, maxn := types[t][i].tag - last - 1, Slots(types[t], 0);
      var now := records + Skip(gap) + [value];
      && (gap > 0 ==> (gap - 1) * 2 + 1 <= 0xffff)
      && Outside(a, b, at + 2 + 2 * maxn + |data|, at + room) && Lies(b, at + 2 + 2 * maxn + |data|, more)
      && Outside(b, c, at + 2 + 2 * |records|, at + 2 + 2 * |now|) && Lies(c, at + 2, Words(now))
    ensures
      var now := records + Skip(types[t][i].tag - last - 1) + [value];
      Filling(types, t, m, c, at, size, room, i + 1, types[t][i].tag, now, data + more)
  {
    hide EncFields, NeedFields, NeedMsg, Combined, Slots, Lies, Outside, Words, Valid, EncValue, NeedValue, Sized, TameMsg;
    var fs, f, h := types[t], types[t][i], at + 2 + 2 * Slots(types[t], 0);
    var now := records + Skip(f.tag - last - 1) + [value];
    var v := Get(m, f.tag).value;
    NextField(types, fs, i, last, m, records, data);
    RecordsCounted(fs, i, last);
    Step(types, t, i);
    ValueFits(types, f, v);
    assert |more| == DataLen(EncValue(types, f, v));
    assert data + [] == data;
    LiesStays(a, b, h, data, h + |data|, at + room);
    LiesJoin(b, h, data, more);
    LiesStays(b, c, h, data + more, at + 2 + 2 * |records|, at + 2 + 2 * |now|);
  }

  /** The room that the records of a field need is there. */
  lemma FillingRoom(types: Schema, t: nat, m: Msg, a: seq<Byte>, b: seq<Byte>, at: nat, size: nat, room: nat, i: nat, last: int,
                    records: seq<nat>, data: seq<Byte>)
    requires Valid(types) && Filling(types, t, m, a, at, size, room, i, last, records, data) && i < |types[t]|
    requires Outside(a, b, at + 2 + 2 * Slots(types[t], 0) + |data|, at + room)
    ensures |records| + (if types[t][i].tag - last - 1 > 0 then 2 else 1) <= Slots(types[t], 0)
    ensures Lies(b, at + 2, Words(records))
  {
    hide EncFields, NeedFields, NeedMsg, Combined, Slots, Lies, Outside, Words, Valid, TameMsg;
    RecordsCounted(types[t], i, last);
    LiesStays(a, b, at + 2, Words(records), at + 2 + 2 * Slots(types[t], 0) + |data|, at + room);
  }

  /** A failure at a field: the message cannot be encoded, or the room is too small. */
  lemma FillingFails(types: Schema, t: nat, m: Msg, a: seq<Byte>, at: nat, size: nat, room: nat, i: nat, last: int,
                     records: seq<nat>, data: seq<Byte>)
    requires Filling(types, t, m, a, at, size, room, i, last, records, data) && i < |types[t]| && Get(m, types[t][i].tag).Some?
    ensures var f, v := types[t][i], Get(m, types[t][i].tag).value;
            var gap, used := f.tag - last - 1, 2 + 2 * Slots(types[t], 0) + |data|;
            && (EncValue(types, f, v).Bad? || (!EncValue(types, f, v).Absent? && gap > 0 && (gap - 1) * 2 + 1 > 0xffff) ==>
                  EncMsg(types, t, m) == None)
            && (size - used < NeedValue(types, f, v) ==> size < NeedMsg(types, t, m))
            && (TameMsg(m) || used + NeedValue(types, f, v) <= room)
  {
    hide EncFields, NeedFields, NeedMsg, Combined, Slots, Lies, Words, EncValue, NeedValue, TameMsg;
    NextField(types, types[t], i, last, m, records, data);
  }

  lemma FillingEnds(types: Schema, t: nat, m: Msg, a: seq<Byte>, at: nat, size: nat, room: nat, last: int, records: seq<nat>, data: seq<Byte>)
    requires t < |types| && Filling(types, t, m, a, at, size, room, |types[t]|, last, records, data)
    ensures EncMsg(types, t, m) == Some(Assemble(Body(records, data)))
    ensures |records| <= Slots(types[t], 0) && 2 + 2 * Slots(types[t], 0) + |data| <= room
    ensures TameMsg(m) ==> NeedMsg(types, t, m) <= size
    ensures Lies(a, at + 2, Words(records)) && Lies(a, at + 2 + 2 * Slots(types[t], 0), data)
  {
    hide EncFields, Combined, Slots, Lies, Words, TameMsg, NeedMsg;
    FieldsEnd(types, types[t], last, m);
    CombinedEnds(records, data);
  }

  lemma NothingLies(a: seq<Byte>, at: int)
    requires 0 <= at <= |a|
    ensures Lies(a, at, [])
  {
  }

  /** sproto_encode: the number of bytes, or -1. `room` is the memory that there is; with a tame
      message, or with all the room that is asked for, it may be as small as `size`, and the result
      is -1 exactly when the message cannot be encoded or the room is too small. */
  method SprotoEncode(types: seq<SprotoType>, t: nat, m: Msg, buffer: array<Byte>, at: nat, size: nat, ghost room: nat) returns (r: int)
    requires AllImported(types) && Valid(SchemaOf(types)) && t < |types| && at + room <= buffer.Length
    requires Spacious(size, room, NeedMsg(SchemaOf(types), t, m), TameMsg(m))
    modifies buffer
    ensures Outside(old(buffer[..]), buffer[..], at, at + room)
    ensures r < 0 ==> EncMsg(SchemaOf(types), t, m) == None || size < NeedMsg(SchemaOf(types), t, m)
    ensures r >= 0 ==> EncMsg(SchemaOf(types), t, m).Some?
    ensures r >= 0 && TameMsg(m) ==> NeedMsg(SchemaOf(types), t, m) <= size
    ensures r >= 0 ==> var b := EncMsg(SchemaOf(types), t, m).value; 0 < r == |b| && Lies(buffer[..], at, b)
    decreases m, 3
  {
    hide Lies, Outside, LE, Words, EncFields, NeedFields, NeedMsg, EncMsg, Slots, Imported, Valid, Filling, TameMsg;
    ghost var schema, before := SchemaOf(types), buffer[..];
    var fs, maxn := types[t].f, types[t].maxn;
    TypeIs(types, t);
    OutsideSame(before, at, at + room);
    NeedsHeader(schema, t, m);
    if size < 2 + maxn * 2 {
      return -1;
    }
    var index, last, used, i := 0, -1, 0, 0;
    ghost var records: seq<nat>, data: seq<Byte> := [], [];
    FillingStarts(schema, t, m, before, at, size, room);
    while i < |fs|
      invariant 0 <= i <= |fs| && index == |records| && used == |data|
      invariant Filling(schema, t, m, buffer[..], at, size, room, i, last, records, data)
      invariant Outside(before, buffer[..], at, at + room)
    {
      FieldType(types, t, i);
      ghost var a := buffer[..];
      var v := Get(m, fs[i].tag);
      if v.Some? {
        var ok;
        ok, last, index, used, records, data :=
          EncodeField(types, t, m, i, v.value, buffer, at, size, room, last, index, used, records, data);
        OutsideJoin(before, a, buffer[..], at, at + room, at, at + room, at, at + room);
        if !ok {
          return -1;
        }
      } else {
        OutsideSame(a, at + 2 + 2 * maxn + used, at + room);
        FillingSkips(schema, t, m, a, a, at, size, room, i, last, records, data);
      }
      i := i + 1;
    }
    FillingEnds(schema, t, m, buffer[..], at, size, room, last, records, data);
    ghost var filled := buffer[..];
    r := Finish(buffer, at, maxn, index, used, records, data);
    OutsideJoin(before, filled, buffer[..], at, at + room, at, at + 2 + 2 * maxn + used, at, at + room);
  }

  lemma NeedsHeader(types: Schema, t: nat, m: Msg)
    requires t < |types|
    ensures NeedMsg(types, t, m) >= 2 + 2 * Slots(types[t], 0)
  {
  }

  /** The body of the loop, for a field that has a value. */
  method EncodeField(types: seq<SprotoType>, t: nat, m: Msg, i: nat, v: Value, buffer: array<Byte>, at: nat, size: nat, ghost room: nat,
                     last0: int, index0: nat, used0: nat, ghost records0: seq<nat>, ghost data0: seq<Byte>)
    returns (ok: bool, last: int, index: nat, used: nat, ghost records: seq<nat>, ghost data: seq<Byte>)
    requires AllImported(types) && Valid(SchemaOf(types)) && t < |types| && i < |types[t].f| && at + room <= buffer.Length
    requires Get(m, types[t].f[i].tag) == Some(v) && v < m && index0 == |records0| && used0 == |data0|
    requires Filling(SchemaOf(types), t, m, buffer[..], at, size, room, i, last0, records0, data0)
    modifies buffer
    ensures Outside(old(buffer[..]), buffer[..], at, at + room)
    ensures ok ==> index == |records| && used == |data| && Filling(SchemaOf(types), t, m, buffer[..], at, size, room, i + 1, last, records, data)
    ensures !ok ==> EncMsg(SchemaOf(types), t, m) == None || size < NeedMsg(SchemaOf(types), t, m)
    decreases m, 2
  {
    hide Lies, Outside, LE, Words, Sized, EncValue, NeedValue, EncMsg, NeedMsg, Slots, Imported, Valid, Encoded, Filling, TameMsg, TameValue;
    ghost var schema, a := SchemaOf(types), buffer[..];
    var f, maxn := types[t].f[i], types[t].maxn;
    ok, last, index, used, records, data := false, last0, index0, used0, records0, data0;
    TypeIs(types, t);
    FieldType(types, t, i);
    FillingFacts(schema, t, m, a, at, size, room, i, last, records, data);
    FillingFails(schema, t, m, a, at, size, room, i, last, records, data);
    if TameMsg(m) { TameGet(m, f.tag, 0); }
    var from, left := at + 2 + 2 * maxn + used, size - (2 + 2 * maxn + used);
    var sz, value := EncodeValue(types, f, v, buffer, from, left, room - (2 + 2 * maxn + used));
    ghost var b, part := buffer[..], EncValue(schema, f, v);
    OutsideWider(a, b, from, at + room, at, at + room);
    EncodedMeans(part, NeedValue(schema, f, v), TameValue(v), sz, value, left, b, from);
    if sz < 0 {
      return;
    }
    if sz == 0 {
      FillingSkips(schema, t, m, a, b, at, size, room, i, last, records, data);
      ok := true;
      return;
    }
    var gap := f.tag - last - 1;
    if gap > 0 && (gap - 1) * 2 + 1 > 0xffff {
      return;
    }
    InlineIsWord(schema, f, v);
    ghost var more: seq<Byte> := if value == 0 then Sized(part.bytes) else [];
    NothingLies(b, from);
    FillingRoom(schema, t, m, a, b, at, size, room, i, last, records, data);
    index := PutRecords(buffer, at + 2, records, index, gap, value);
    FillingGrows(schema, t, m, a, b, buffer[..], at, size, room, i, last, records, data, value, more);
    OutsideJoin(a, b, buffer[..], at, at + room, at + 2 + 2 * index0, at + 2 + 2 * index, at, at + room);
    records, data := records + Skip(gap) + [value], data + more;
    if value == 0 {
      used := used + sz;
    }
    last := f.tag;
    ok := true;
  }

  lemma FillingFacts(types: Schema, t: nat, m: Msg, a: seq<Byte>, at: nat, size: nat, room: nat, i: nat, last: int, records: seq<nat>, data: seq<Byte>)
    requires Filling(types, t, m, a, at, size, room, i, last, records, data) && i < |types[t]|
    ensures 2 + 2 * Slots(types[t], 0) + |data| <= room && last <= Prev(types[t], i) && size <= room
    ensures 2 + 2 * Slots(types[t], 0) <= size
    ensures TameMsg(m) ==> 2 + 2 * Slots(types[t], 0) + |data| <= size
  {
  }

  /** From one program to another: what is encoded with one version of the schema and decoded with
      another is the projection of the message, whatever the buffer holds behind it. */
  method Transfer(types1: seq<SprotoType>, t1: nat, types2: seq<SprotoType>, t2: nat, ghost pairs: set<(nat, nat)>,
                  m: Msg, buffer: array<Byte>, astray: Got) returns (d: Option<Decoded>)
    requires AllImported(types1) && AllImported(types2) && Valid(SchemaOf(types1)) && t1 < |types1| && t2 < |types2|
    requires Agree(SchemaOf(types1), SchemaOf(types2), pairs) && (t1, t2) in pairs && buffer.Length < H31
    requires TameMsg(m) || NeedMsg(SchemaOf(types1), t1, m) <= buffer.Length
    modifies buffer
    ensures d.Some? <==> EncMsg(SchemaOf(types1), t1, m).Some? && NeedMsg(SchemaOf(types1), t1, m) <= buffer.Length
    ensures d.Some? ==> d.value.m == Project(SchemaOf(types1), t1, SchemaOf(types2), t2, m)
  {
    hide EncMsg, DecMsg, SrcMsg, NeedMsg, TameMsg, Project, Agree, Valid, Imported, Lies;
    var r := SprotoEncode(types1, t1, m, buffer, 0, buffer.Length, buffer.Length);
    if r < 0 {
      return None;
    }
    ghost var b := EncMsg(SchemaOf(types1), t1, m).value;
    LiesFirst(buffer[..], b);
    MessageBack(SchemaOf(types1), t1, SchemaOf(types2), t2, pairs, m, buffer[..][r..]);
    FormatAccepted(SchemaOf(types2), t2, buffer[..], astray);
    d := SprotoDecode(types2, t2, buffer[..], astray);
  }

  lemma LiesFirst(a: seq<Byte>, b: seq<Byte>)
    requires Lies(a, 0, b)
    ensures a == b + a[|b|..]
  {
  }
}
