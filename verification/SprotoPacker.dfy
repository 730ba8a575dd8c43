/** The loops of sproto_pack and sproto_unpack (lualib/sproto/sproto.c), writing in place into
    a buffer of any size and counting what does not fit, proved against SprotoPack.dfy.
 */
module SprotoPacker {
  import opened SprotoPack

  /** The write position `at` of a buffer as the C pointer and the remaining size: `bufsz` is
      buffer.Length - at, and is negative once the output no longer fits. */
  method PackSeg(src: Segment, buffer: array<Byte>, at: nat, n: nat) returns (size: nat)
    requires n <= MAX_RUN
    modifies buffer
    ensures forall k :: 0 <= k < at && k < buffer.Length ==> buffer[k] == old(buffer[k])
    ensures var dense := Dense(src, 0);
            && (n > 0 && |dense| >= 6 ==> size == SEG)
            && (n == 0 && |dense| == SEG ==> size == SEG + 2)
            && (!(n > 0 && |dense| >= 6) && |dense| != SEG ==>
                  size == 1 + |dense| && (at + size <= buffer.Length ==> buffer[at..at + size] == SmallBytes(src)))
  {
    hide Dense, Header;
    var header: nat, notzero: nat, i: nat, pow: nat := 0, 0, 0, 1;
    ghost var done: seq<Byte> := [];
    HeaderFits(src, 0);
    while i < SEG
      invariant 0 <= i <= SEG
      invariant Header(src, 0) == header + pow * Header(src, i)
      invariant done + Dense(src, i) == Dense(src, 0) && |done| == notzero
      invariant forall k :: 0 <= k < at && k < buffer.Length ==> buffer[k] == old(buffer[k])
      invariant forall k :: at + 1 <= k < at + 1 + notzero && k < buffer.Length ==> buffer[k] == done[k - at - 1]
    {
      SegmentStep(src, i, pow, header, done);
      if src[i] != 0 {
        if at + 1 + notzero < buffer.Length {
          buffer[at + 1 + notzero] := src[i];
        }
        header := header + pow;
        notzero := notzero + 1;
        done := done + [src[i]];
      }
      pow := 2 * pow;
      i := i + 1;
    }
    SegmentEnd(src, pow);
    NoRest(done);
    if (notzero == 7 || notzero == 6) && n > 0 {
      notzero := 8;
    }
    if notzero == 8 {
      size := if n > 0 then 8 else 10;
    } else {
      if at < buffer.Length {
        buffer[at] := header as Byte;
      }
      size := notzero + 1;
      if at + size <= buffer.Length {
        assert buffer[at + 1..at + size] == done;
        assert buffer[at..at + size] == [buffer[at]] + buffer[at + 1..at + size];
      }
    }
  }

  lemma SegmentStep(g: Segment, i: nat, pow: nat, header: nat, done: seq<Byte>)
    requires i < SEG
    ensures header + pow * Header(g, i) == header + (if g[i] != 0 then pow else 0) + (2 * pow) * Header(g, i + 1)
    ensures done + Dense(g, i) == (if g[i] != 0 then done + [g[i]] else done) + Dense(g, i + 1)
  {
    DenseStep(g, i, []);
    hide Dense, Header;
    Distribute(pow, One(g[i] != 0), Header(g, i + 1));
    NoRest(Dense(g, i));
    NoRest(Dense(g, i + 1));
    if g[i] != 0 { Assoc(done, [g[i]], Dense(g, i + 1)); }
  }

  lemma Distribute(pow: nat, bit: nat, h: nat)
    ensures pow * (bit + 2 * h) == pow * bit + (2 * pow) * h
  {
  }

  lemma NoRest(s: seq<Byte>)
    ensures s + [] == s && [] + s == s
  {
  }

  lemma Assoc(a: seq<Byte>, b: seq<Byte>, c: seq<Byte>)
    ensures a + b + c == a + (b + c)
  {
  }

  lemma SegmentEnd(g: Segment, pow: nat)
    ensures Dense(g, SEG) == [] && pow * Header(g, SEG) == 0
  {
  }

  // -------------------------------------------------------------------- runs

  /** After the first `k` segments, `out` has been produced. */
  ghost predicate Done(segs: seq<Segment>, tail: Segment, k: nat, out: seq<Byte>) {
    k <= |segs| && Pack(segs, tail) == out + Pack(segs[k..], tail)
  }

  /** `n` segments from `r` can be one run. */
  ghost predicate Running(segs: seq<Segment>, r: nat, n: nat) {
    && 1 <= n <= MAX_RUN && r + n <= |segs| && |Dense(segs[r], 0)| == SEG
    && forall j :: r < j < r + n ==> |Dense(segs[j], 0)| >= 6
  }

  lemma SmallDone(segs: seq<Segment>, tail: Segment, k: nat, out: seq<Byte>)
    requires Done(segs, tail, k, out) && k < |segs| && |Dense(segs[k], 0)| != SEG
    ensures Done(segs, tail, k + 1, out + SmallBytes(segs[k]))
    ensures |SmallBytes(segs[k])| == 1 + |Dense(segs[k], 0)|
  {
    HeaderFits(segs[k], 0);
    hide Dense, Header, Pow2;
    assert segs[k..][0] == segs[k] && segs[k..][1..] == segs[k + 1..];
    Assoc(out, [Header(segs[k], 0) as Byte] + Dense(segs[k], 0), Pack(segs[k + 1..], tail));
  }

  lemma RunDone(segs: seq<Segment>, tail: Segment, r: nat, n: nat, out: seq<Byte>)
    requires Done(segs, tail, r, out) && Running(segs, r, n) && RunLength(segs[r..]) == n
    ensures Done(segs, tail, r + n, out + RunBytes(segs, tail, r, n))
  {
    hide Dense, Header, Pow2, RunBody, RunLength;
    assert segs[r..][0] == segs[r] && segs[r..][n..] == segs[r + n..];
    Assoc(out, [0xff, (n - 1) as Byte] + RunBody(segs[r..], tail), Pack(segs[r + n..], tail));
  }

  lemma {:induction false} MoreExact(segs: seq<Segment>, limit: nat, m: nat)
    requires m <= limit && m <= |segs|
    requires forall j :: 0 <= j < m ==> |Dense(segs[j], 0)| >= 6
    requires m == limit || m == |segs| || |Dense(segs[m], 0)| < 6
    ensures More(segs, limit) == m
    decreases m
  {
    hide Dense;
    if m > 0 {
      forall j | 0 <= j < m - 1 ensures |Dense(segs[1..][j], 0)| >= 6 {
        assert segs[1..][j] == segs[j + 1];
      }
      MoreExact(segs[1..], limit - 1, m - 1);
    }
  }

  /** A run that cannot go on has its full length. */
  lemma RunIs(segs: seq<Segment>, r: nat, n: nat)
    requires Running(segs, r, n)
    requires n == MAX_RUN || r + n == |segs| || |Dense(segs[r + n], 0)| < 6
    ensures RunLength(segs[r..]) == n
  {
    hide Dense;
    var rest := segs[r..][1..];
    forall j | 0 <= j < n - 1 ensures |Dense(rest[j], 0)| >= 6 {
      assert rest[j] == segs[r + 1 + j];
    }
    if r + n < |segs| { assert rest[n - 1] == segs[r + n]; }
    MoreExact(rest, MAX_RUN - 1, n - 1);
  }

  // ------------------------------------------------------------------- memory

  /** The segments of the padded input. */
  lemma SegmentAt(s: seq<Byte>, k: nat)
    requires k < |Split(Pad(s))|
    ensures Split(Pad(s))[k] == if SEG * k + SEG <= |s| then s[SEG * k..SEG * k + SEG] else s[SEG * k..] + Zeros(SEG * k + SEG - |s|)
    ensures SEG * k < |s|
    ensures SEG * k + SEG > |s| ==> k == |Split(Pad(s))| - 1 && SEG * k + SEG - |s| == Padding(|s|)
  {
    var p := Pad(s);
    assert p[SEG * k..SEG * k + SEG] == if SEG * k + SEG <= |s| then s[SEG * k..SEG * k + SEG] else s[SEG * k..] + Zeros(SEG * k + SEG - |s|);
  }

  /** A segment without zeros is not padded. */
  lemma FullIsReal(s: seq<Byte>, k: nat)
    requires k < |Split(Pad(s))| && |Dense(Split(Pad(s))[k], 0)| == SEG
    ensures SEG * k + SEG <= |s|
  {
    SegmentAt(s, k);
    var g := Split(Pad(s))[k];
    if SEG * k + SEG > |s| {
      assert g[SEG - 1] == 0;
      ZeroIsMissing(g, 0, SEG - 1);
    }
  }

  lemma {:induction false} ZeroIsMissing(g: Segment, i: nat, z: nat)
    requires i <= z < SEG && g[z] == 0
    ensures |Dense(g, i)| < SEG - i
    decreases z - i
  {
    if i < z { ZeroIsMissing(g, i + 1, z); }
  }

  /** Consecutive segments are consecutive bytes of the padded input. */
  lemma {:induction false} FlatIsSlice(p: seq<Byte>, r: nat, n: nat)
    requires |p| % SEG == 0 && r + n <= |Split(p)|
    ensures Flat(Split(p)[r..r + n]) == p[SEG * r..SEG * (r + n)]
    decreases n
  {
    if n > 0 {
      var segs := Split(p);
      FlatIsSlice(p, r, n - 1);
      assert segs[r..r + n][..n - 1] == segs[r..r + n - 1];
      assert segs[r..r + n][n - 1] == segs[r + n - 1] == p[SEG * (r + n - 1)..SEG * (r + n)];
    }
  }

  /** What a run copies, as bytes of memory. */
  lemma BodyIsMemory(s: seq<Byte>, beyond: seq<Byte>, r: nat, n: nat)
    requires |beyond| >= SEG
    requires Running(Split(Pad(s)), r, n) && RunLength(Split(Pad(s))[r..]) == n
    ensures SEG * r < |s| && SEG * (r + n) <= |Pad(s)| <= |s| + SEG - 1
    ensures RunBody(Split(Pad(s))[r..], Tail(s, beyond)) ==
      if n == MAX_RUN then (s + beyond)[SEG * r..SEG * (r + n)] else Pad(s)[SEG * r..SEG * (r + n)]
  {
    hide Dense, RunLength, Flat;
    var p, segs := Pad(s), Split(Pad(s));
    SegmentAt(s, r);
    FlatIsSlice(p, r, n);
    assert segs[r..][..n] == segs[r..r + n];
    if n == MAX_RUN {
      FlatIsSlice(p, r, n - 1);
      assert segs[r..][..n - 1] == segs[r..r + n - 1];
      MemorySlices(s, beyond, r, n);
    }
  }

  lemma MemorySlices(s: seq<Byte>, beyond: seq<Byte>, r: nat, n: nat)
    requires |beyond| >= SEG && n > 0 && SEG * (r + n) <= |Pad(s)|
    ensures SEG * (r + n) < |Pad(s)| ==> Pad(s)[SEG * r..SEG * (r + n)] == (s + beyond)[SEG * r..SEG * (r + n)]
    ensures SEG * (r + n) == |Pad(s)| ==>
      Pad(s)[SEG * r..SEG * (r + n - 1)] + Tail(s, beyond) == (s + beyond)[SEG * r..SEG * (r + n)]
  {
    var p, m, mid := Pad(s), s + beyond, SEG * (r + n - 1);
    assert mid <= |s|;
    assert p[SEG * r..mid] == m[SEG * r..mid];
    if SEG * (r + n) == |p| {
      assert s != [];
      assert m[SEG * r..SEG * (r + n)] == m[SEG * r..mid] + m[mid..mid + SEG];
    } else {
      assert SEG * (r + n) <= |s|;
      assert p[SEG * r..SEG * (r + n)] == s[SEG * r..SEG * (r + n)] == m[SEG * r..SEG * (r + n)];
    }
  }

  /** The bytes of a run: its two-byte head, `n` bytes of memory and zeros to whole segments. */
  method WriteFf(src: seq<Byte>, from: nat, n: nat, buffer: array<Byte>, des: nat)
    requires 0 < n <= SEG * MAX_RUN && from + n <= |src| && des + 2 + n + Padding(n) <= buffer.Length
    modifies buffer
    ensures buffer[..des] == old(buffer[..des])
    ensures buffer[des + 2 + n + Padding(n)..] == old(buffer[des + 2 + n + Padding(n)..])
    ensures buffer[des..des + 2 + n + Padding(n)] ==
            [0xff, ((n + Padding(n)) / SEG - 1) as Byte] + (src[from..from + n] + Zeros(Padding(n)))
  {
    var align8 := (n + 7) / 8 * 8;
    AlignUp(n);
    buffer[des] := 0xff;
    buffer[des + 1] := (align8 / 8 - 1) as Byte;
    forall k | 0 <= k < n {
      buffer[des + 2 + k] := src[from + k];
    }
    var i := 0;
    while i < align8 - n
      invariant 0 <= i <= align8 - n
      invariant forall k :: 0 <= k < des || des + 2 + align8 <= k < buffer.Length ==> buffer[k] == old(buffer[k])
      invariant buffer[des] == 0xff && buffer[des + 1] == (align8 / 8 - 1) as Byte
      invariant forall k :: des + 2 <= k < des + 2 + n ==> buffer[k] == src[from + k - des - 2]
      invariant forall k :: des + 2 + n <= k < des + 2 + n + i ==> buffer[k] == 0
    {
      buffer[des + 2 + n + i] := 0;
      i := i + 1;
    }
    RunLayout(buffer[..], des, (align8 / 8 - 1) as Byte, src[from..from + n], align8 - n);
  }

  lemma RunLayout(b: seq<Byte>, des: nat, count: Byte, bytes: seq<Byte>, zeros: nat)
    requires des + 2 + |bytes| + zeros <= |b| && b[des] == 0xff && b[des + 1] == count
    requires forall k :: des + 2 <= k < des + 2 + |bytes| ==> b[k] == bytes[k - des - 2]
    requires forall k :: des + 2 + |bytes| <= k < des + 2 + |bytes| + zeros ==> b[k] == 0
    ensures b[des..des + 2 + |bytes| + zeros] == [0xff, count] + (bytes + Zeros(zeros))
  {
    var m, e := des + 2 + |bytes|, des + 2 + |bytes| + zeros;
    assert b[des + 2..m] == bytes;
    assert b[m..e] == Zeros(zeros);
    assert b[des + 2..e] == b[des + 2..m] + b[m..e];
    assert b[des..e] == [b[des], b[des + 1]] + b[des + 2..e];
  }

  lemma AlignUp(n: nat)
    ensures (n + 7) / 8 * 8 == n + Padding(n)
  {
    var q, r := n / 8, n % 8;
    assert n == 8 * q + r;
    if r == 0 { assert (n + 7) / 8 == q; } else { assert (n + 7) / 8 == q + 1; }
  }

  /** The segment at byte `i`, from memory or from the padded copy. */
  function SegmentOf(s: seq<Byte>, i: nat): Segment
    requires i < |s|
  {
    if i + SEG <= |s| then s[i..i + SEG] else s[i..] + Zeros(i + SEG - |s|)
  }

  lemma StartDone(s: seq<Byte>, beyond: seq<Byte>)
    requires |beyond| >= SEG
    ensures Done(Split(Pad(s)), Tail(s, beyond), 0, [])
    ensures |Split(Pad(s))| == 0 <==> |s| == 0
  {
    var segs, tail := Split(Pad(s)), Tail(s, beyond);
    assert segs[0..] == segs;
    NoRest(Pack(segs, tail));
  }

  lemma SegmentIs(s: seq<Byte>, k: nat)
    requires SEG * k < |s|
    ensures k < |Split(Pad(s))| && Split(Pad(s))[k] == SegmentOf(s, SEG * k)
    ensures k + 1 == |Split(Pad(s))| <==> SEG * (k + 1) >= |s|
  {
    SegmentAt(s, k);
  }

  lemma AllDone(s: seq<Byte>, beyond: seq<Byte>, out: seq<Byte>)
    requires |beyond| >= SEG && Done(Split(Pad(s)), Tail(s, beyond), |Split(Pad(s))|, out)
    ensures out == PackBytes(s, beyond)
  {
    var segs, tail := Split(Pad(s)), Tail(s, beyond);
    PackNothing(tail);
    NoRest(out);
    assert segs[|segs|..] == [];
  }

  ghost function RunBytes(segs: seq<Segment>, tail: Segment, r: nat, n: nat): seq<Byte>
    requires Running(segs, r, n)
  {
    [0xff, (n - 1) as Byte] + RunBody(segs[r..], tail)
  }

  ghost function SmallBytes(g: Segment): seq<Byte>
  {
    HeaderFits(g, 0);
    [Header(g, 0) as Byte] + Dense(g, 0)
  }

  lemma RunSize(segs: seq<Segment>, tail: Segment, r: nat, n: nat)
    requires Running(segs, r, n) && RunLength(segs[r..]) == n
    ensures |RunBytes(segs, tail, r, n)| == 2 + SEG * n
  {
  }

  lemma RunStarts(segs: seq<Segment>, k: nat)
    requires k < |segs| && |Dense(segs[k], 0)| == SEG
    ensures Running(segs, k, 1)
  {
  }

  lemma RunGoesOn(segs: seq<Segment>, r: nat, n: nat)
    requires Running(segs, r, n) && n < MAX_RUN && r + n < |segs| && |Dense(segs[r + n], 0)| >= 6
    ensures Running(segs, r, n + 1)
  {
    hide Dense;
  }

  lemma RunFinished(segs: seq<Segment>, tail: Segment, r: nat, n: nat, out: seq<Byte>)
    requires Done(segs, tail, r, out) && Running(segs, r, n)
    requires n == MAX_RUN || r + n == |segs| || (r + n < |segs| && |Dense(segs[r + n], 0)| < 6)
    ensures RunLength(segs[r..]) == n
    ensures Done(segs, tail, r + n, out + RunBytes(segs, tail, r, n))
    ensures |RunBytes(segs, tail, r, n)| == 2 + SEG * n
  {
    hide Dense, Done, RunBytes, RunLength;
    RunIs(segs, r, n);
    RunDone(segs, tail, r, n, out);
    RunSize(segs, tail, r, n);
  }

  /** Writes the bytes of the finished run that began at segment `r`. */
  method FlushRun(s: seq<Byte>, beyond: seq<Byte>, buffer: array<Byte>, des: nat, from: nat, bytes: nat, ghost r: nat, ghost n: nat)
    requires |beyond| >= SEG && Running(Split(Pad(s)), r, n) && RunLength(Split(Pad(s))[r..]) == n
    requires from == SEG * r && bytes == if n < MAX_RUN && r + n == |Split(Pad(s))| then |s| - SEG * r else SEG * n
    requires des + 2 + SEG * n <= buffer.Length
    modifies buffer
    ensures buffer[..des] == old(buffer[..des])
    ensures buffer[des + 2 + SEG * n..] == old(buffer[des + 2 + SEG * n..])
    ensures buffer[des..des + 2 + SEG * n] == RunBytes(Split(Pad(s)), Tail(s, beyond), r, n)
  {
    hide *;
    RunMemory(s, beyond, r, n, bytes);
    WriteFf(s + beyond, from, bytes, buffer, des);
  }

  lemma RunMemory(s: seq<Byte>, beyond: seq<Byte>, r: nat, n: nat, bytes: nat)
    requires |beyond| >= SEG && Running(Split(Pad(s)), r, n) && RunLength(Split(Pad(s))[r..]) == n
    requires bytes == if n < MAX_RUN && r + n == |Split(Pad(s))| then |s| - SEG * r else SEG * n
    ensures 1 <= n <= MAX_RUN && 0 < bytes <= SEG * MAX_RUN && SEG * r + bytes <= |s + beyond|
    ensures bytes + Padding(bytes) == SEG * n && (bytes + Padding(bytes)) / SEG == n
    ensures RunBytes(Split(Pad(s)), Tail(s, beyond), r, n) ==
            [0xff, (n - 1) as Byte] + ((s + beyond)[SEG * r..SEG * r + bytes] + Zeros(Padding(bytes)))
  {
    hide Dense, RunLength, RunBody, Split, Pad, Tail, Padding, Zeros;
    BodyIsMemory(s, beyond, r, n);
    RunFits(s, beyond, r, n, bytes);
  }

  lemma RunFits(s: seq<Byte>, beyond: seq<Byte>, r: nat, n: nat, bytes: nat)
    requires |beyond| >= SEG && 1 <= n <= MAX_RUN && r + n <= |Split(Pad(s))| && SEG * r < |s|
    requires bytes == if n < MAX_RUN && r + n == |Split(Pad(s))| then |s| - SEG * r else SEG * n
    ensures bytes + Padding(bytes) == SEG * n && SEG * r + bytes <= |s + beyond| && bytes > 0
    ensures (s + beyond)[SEG * r..SEG * r + bytes] + Zeros(Padding(bytes)) ==
      if n == MAX_RUN then (s + beyond)[SEG * r..SEG * (r + n)] else Pad(s)[SEG * r..SEG * (r + n)]
  {
    hide Split;
    SegmentsOfPad(s);
    if n < MAX_RUN && r + n == |Split(Pad(s))| {
      SamePadding(s, r, bytes);
      assert Pad(s)[SEG * r..SEG * (r + n)] == s[SEG * r..] + Zeros(Padding(|s|));
      assert (s + beyond)[SEG * r..|s|] == s[SEG * r..];
    } else {
      WholePadding(n);
      if n < MAX_RUN { MemorySlices(s, beyond, r, n); }
      NoRest((s + beyond)[SEG * r..SEG * r + bytes]);
      assert Zeros(0) == [];
    }
  }

  lemma SegmentsOfPad(s: seq<Byte>)
    ensures SEG * |Split(Pad(s))| == |Pad(s)| == |s| + Padding(|s|)
  {
  }

  lemma SamePadding(s: seq<Byte>, r: nat, bytes: nat)
    requires bytes + SEG * r == |s|
    ensures Padding(bytes) == Padding(|s|)
  {
    assert |s| % SEG == bytes % SEG;
  }

  lemma WholePadding(n: nat)
    ensures Padding(SEG * n) == 0
  {
    assert (SEG * n) % SEG == 0;
  }

  lemma LastIsReal(s: seq<Byte>, r: nat)
    requires Running(Split(Pad(s)), r, 1) && r + 1 == |Split(Pad(s))|
    ensures |s| == SEG * r + SEG
  {
    FullIsReal(s, r);
    SegmentAt(s, r);
  }

  /** Closes a run: when everything so far fits (it ends at `end`), its bytes are written. */
  method EndRun(s: seq<Byte>, beyond: seq<Byte>, buffer: array<Byte>, des: nat, from: nat, bytes: nat, end: nat,
    ghost r: nat, ghost n: nat, ghost out: seq<Byte>) returns (ghost all: seq<Byte>)
    requires |beyond| >= SEG && Running(Split(Pad(s)), r, n) && Done(Split(Pad(s)), Tail(s, beyond), r, out)
    requires n == MAX_RUN || r + n == |Split(Pad(s))| || (r + n < |Split(Pad(s))| && |Dense(Split(Pad(s))[r + n], 0)| < 6)
    requires from == SEG * r && bytes == if n < MAX_RUN && r + n == |Split(Pad(s))| then |s| - SEG * r else SEG * n
    requires des == |out| && des + 2 + SEG * n <= end
    requires end <= buffer.Length ==> buffer[..des] == out
    modifies buffer
    ensures Done(Split(Pad(s)), Tail(s, beyond), r + n, all) && |all| == des + 2 + SEG * n
    ensures end <= buffer.Length ==> buffer[..|all|] == all
    ensures end <= buffer.Length ==> buffer[des + 2 + SEG * n..end] == old(buffer[des + 2 + SEG * n..end])
  {
    hide Dense, Header, RunLength, Pack, RunBody, Flat, Tail, RunBytes, Running, Done, Pad, Split;
    ghost var segs, tail := Split(Pad(s)), Tail(s, beyond);
    RunFinished(segs, tail, r, n, out);
    if end <= buffer.Length {
      FlushRun(s, beyond, buffer, des, from, bytes, r, n);
      Glue(buffer, out, RunBytes(segs, tail, r, n));
      ghost var at := des + 2 + SEG * n;
      assert buffer[at..end] == buffer[at..][..end - at];
      assert old(buffer[at..end]) == old(buffer[at..])[..end - at];
    }
    all := out + RunBytes(segs, tail, r, n);
  }

  /** Closes the run that the end of the input leaves open. */
  method LastRun(s: seq<Byte>, beyond: seq<Byte>, buffer: array<Byte>, ffDes: nat, ffSrc: nat, ffN: nat, size: nat,
    ghost out: seq<Byte>) returns (ghost all: seq<Byte>)
    requires |beyond| >= SEG && 0 < ffN < MAX_RUN && ffN <= |Split(Pad(s))|
    requires var r := |Split(Pad(s))| - ffN;
      Running(Split(Pad(s)), r, ffN) && Done(Split(Pad(s)), Tail(s, beyond), r, out) && ffSrc == SEG * r && ffSrc < |s|
    requires ffDes == |out| && size == ffDes + 2 + SEG * ffN
    requires size <= buffer.Length ==> buffer[..ffDes] == out
    modifies buffer
    ensures Done(Split(Pad(s)), Tail(s, beyond), |Split(Pad(s))|, all) && |all| == size
    ensures size <= buffer.Length ==> buffer[..size] == all
  {
    hide Dense, Header, RunLength, Pack, RunBody, Flat, Tail, RunBytes, Running, Done, Pad, Split;
    ghost var r := |Split(Pad(s))| - ffN;
    if ffN == 1 {
      LastIsReal(s, r);
      all := EndRun(s, beyond, buffer, ffDes, ffSrc, SEG, size, r, 1, out);
    } else {
      all := EndRun(s, beyond, buffer, ffDes, ffSrc, |s| - ffSrc, size, r, ffN, out);
    }
  }

  /** sproto_pack: writes as much of the packed input as fits and returns its full size.
      `beyond` are the bytes behind the input in memory. */
  method PackInto(s: seq<Byte>, beyond: seq<Byte>, buffer: array<Byte>) returns (size: nat)
    requires |beyond| >= SEG
    modifies buffer
    ensures size == |PackBytes(s, beyond)|
    ensures size <= buffer.Length ==> buffer[..size] == PackBytes(s, beyond)
  {
    hide Dense, Header, RunLength, Pack, RunBody, Flat, Tail, RunBytes, SmallBytes, Running, Done;
    hide PackBytes, Pad, Split, SegmentOf;
    ghost var segs, tail := Split(Pad(s)), Tail(s, beyond);
    ghost var out: seq<Byte>, k: nat := [], 0;
    var ffSrc: nat, ffDes: nat, ffN: nat := 0, 0, 0;
    var i: nat := 0;
    size := 0;
    StartDone(s, beyond);
    while i < |s|
      invariant i == SEG * k && k <= |segs| && (k == |segs| <==> i >= |s|)
      invariant ffN < MAX_RUN && ffN <= k && Done(segs, tail, k - ffN, out)
      invariant ffN == 0 ==> size == |out|
      invariant ffN > 0 ==> ffSrc == SEG * (k - ffN) < |s| && ffDes == |out| && size == |out| + 2 + SEG * ffN
      invariant ffN > 0 ==> Running(segs, k - ffN, ffN)
      invariant size <= buffer.Length ==> buffer[..|out|] == out
    {
      SegmentIs(s, k);
      var seg := SegmentOf(s, i);
      ghost var r := k - ffN;
      var n := PackSeg(seg, buffer, size, ffN);
      assert |out| <= size && (size + n <= buffer.Length ==> buffer[..|out|] == out);
      if n == SEG + 2 {
        // first FF
        RunStarts(segs, k);
        ffSrc, ffDes, ffN := i, size, 1;
      } else if n == SEG && ffN > 0 {
        RunGoesOn(segs, r, ffN);
        ffN := ffN + 1;
        if ffN == MAX_RUN {
          out := EndRun(s, beyond, buffer, ffDes, ffSrc, SEG * MAX_RUN, size + n, r, MAX_RUN, out);
          ffN := 0;
        }
      } else {
        if ffN > 0 {
          out := EndRun(s, beyond, buffer, ffDes, ffSrc, SEG * ffN, size + n, r, ffN, out);
          ffN := 0;
        }
        SmallDone(segs, tail, k, out);
        if size + n <= buffer.Length { Glue(buffer, out, SmallBytes(seg)); }
        out := out + SmallBytes(seg);
      }
      i, k := i + SEG, k + 1;
      size := size + n;
    }
    if ffN > 0 {
      out := LastRun(s, beyond, buffer, ffDes, ffSrc, ffN, size, out);
    }
    AllDone(s, beyond, out);
  }

  lemma Glue(buffer: array<Byte>, out: seq<Byte>, more: seq<Byte>)
    requires |out| + |more| <= buffer.Length
    requires buffer[..|out|] == out && buffer[|out|..|out| + |more|] == more
    ensures buffer[..|out + more|] == out + more
  {
  }
}
