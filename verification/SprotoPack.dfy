/** Zero packing (lualib/sproto/sproto.c, sproto_pack and sproto_unpack): the format, its size
    bound and its round trip.  SprotoPacker.dfy holds the loops that write it.

    Data is packed in segments of eight bytes, the last one padded with zeros.  A segment is a
    header byte whose bits say which bytes are not zero, followed by those bytes.  A segment
    without zeros starts a run: 0xff, the number of segments less one, and the segments as
    they are; segments with at most two zeros prolong a run, up to 256 segments.
 */
module SprotoPack {
  import opened Basics

  newtype Byte = x: int | 0 <= x < 256

  const SEG := 8
  const MAX_RUN := 256

  type Segment = s: seq<Byte> | |s| == SEG witness [0, 0, 0, 0, 0, 0, 0, 0]

  function One(b: bool): nat { if b then 1 else 0 }

  /** The bytes of a segment from position `i` that are not zero. */
  function Dense(g: Segment, i: nat): (r: seq<Byte>)
    requires i <= SEG
    ensures |r| <= SEG - i
    decreases SEG - i
  {
    if i == SEG then [] else (if g[i] != 0 then [g[i]] else []) + Dense(g, i + 1)
  }

  /** The header bits of a segment from position `i`, shifted right by `i`. */
  function Header(g: Segment, i: nat): (h: nat)
    requires i <= SEG
    decreases SEG - i
  {
    if i == SEG then 0 else One(g[i] != 0) + 2 * Header(g, i + 1)
  }

  function Flat(segs: seq<Segment>): (r: seq<Byte>)
    ensures |r| == SEG * |segs|
  {
    if segs == [] then [] else Flat(segs[..|segs| - 1]) + segs[|segs| - 1]
  }

  /** The segments after the first of a run: those with at least six bytes that are not zero. */
  function More(segs: seq<Segment>, limit: nat): (n: nat)
    ensures n <= limit && n <= |segs|
    decreases limit
  {
    if limit == 0 || segs == [] || |Dense(segs[0], 0)| < 6 then 0 else 1 + More(segs[1..], limit - 1)
  }

  /** The length of the run that a first segment without zeros starts. */
  function RunLength(segs: seq<Segment>): (n: nat)
    requires segs != []
    ensures 1 <= n <= MAX_RUN && n <= |segs|
  {
    1 + More(segs[1..], MAX_RUN - 1)
  }

  /** The segments of a run as they are copied.  A run that reaches 256 segments is copied
      from memory in full, so if its last segment is the padded one, the bytes that happen to
      follow the input in memory (in `tail`) take the place of the padding. */
  function RunBody(segs: seq<Segment>, tail: Segment): seq<Byte>
    requires segs != []
  {
    var n := RunLength(segs);
    if n == MAX_RUN == |segs| then Flat(segs[..n - 1]) + tail else Flat(segs[..n])
  }

  function Pack(segs: seq<Segment>, tail: Segment): seq<Byte>
    decreases |segs|
  {
    if segs == [] then []
    else if |Dense(segs[0], 0)| == SEG then
      var n := RunLength(segs);
      [0xff, (n - 1) as Byte] + RunBody(segs, tail) + Pack(segs[n..], tail)
    else
      HeaderFits(segs[0], 0);
      [Header(segs[0], 0) as Byte] + Dense(segs[0], 0) + Pack(segs[1..], tail)
  }

  function Pow2(n: nat): nat { if n == 0 then 1 else 2 * Pow2(n - 1) }

  /** The header is all ones exactly for a segment without zeros. */
  lemma {:induction false} HeaderFits(g: Segment, i: nat)
    requires i <= SEG
    ensures Header(g, i) < Pow2(SEG - i)
    ensures Pow2(8) == 256
    ensures Header(g, i) == Pow2(SEG - i) - 1 <==> |Dense(g, i)| == SEG - i
    decreases SEG - i
  {
    assert Pow2(8) == 2 * Pow2(7) == 4 * Pow2(6) == 8 * Pow2(5) == 16 * Pow2(4);
    if i < SEG { HeaderFits(g, i + 1); }
  }

  // --------------------------------------------------------------- unpacking

  /** The bytes of a segment that is described by `header`, from bit `i`, and what is left of
      the input.  A missing byte is noticed only when a second one is missing: the first is
      read from behind the input (`stray`). */
  datatype Piece = Piece(bytes: seq<Byte>, used: nat)

  function Expand(header: nat, i: nat, src: seq<Byte>, stray: Byte): (r: Option<Piece>)
    requires i <= SEG
    ensures r.Some? ==> |r.value.bytes| == SEG - i && r.value.used <= |src| + 1
    decreases SEG - i
  {
    if i == SEG then Some(Piece([], 0))
    else if header % 2 == 1 then
      if src == [] then
        (if AllZero(header / 2, i + 1) then Some(Piece([stray] + Zeros(SEG - i - 1), 1)) else None)
      else
        match Expand(header / 2, i + 1, src[1..], stray)
        case None => None
        case Some(p) => Some(Piece([src[0]] + p.bytes, p.used + 1))
    else
      match Expand(header / 2, i + 1, src, stray)
      case None => None
      case Some(p) => Some(Piece([0] + p.bytes, p.used))
  }

  predicate AllZero(header: nat, i: nat)
    requires i <= SEG
    decreases SEG - i
  {
    i == SEG || (header % 2 == 0 && AllZero(header / 2, i + 1))
  }

  function Zeros(n: nat): (r: seq<Byte>)
    ensures |r| == n
  {
    seq(n, _ => 0)
  }

  function Unpack(src: seq<Byte>, stray: Byte): Option<seq<Byte>>
    decreases |src|
  {
    if src == [] then Some([])
    else if src[0] == 0xff then
      if |src| == 1 then None
      else
        var n := (src[1] as nat + 1) * SEG;
        if |src| - 2 < n then None
        else
          match Unpack(src[2 + n..], stray)
          case None => None
          case Some(r) => Some(src[2..2 + n] + r)
    else
      match Expand(src[0] as nat, 0, src[1..], stray)
      case None => None
      case Some(p) =>
        if 1 + p.used >= |src| then Some(p.bytes)
        else
          match Unpack(src[1 + p.used..], stray)
          case None => None
          case Some(r) => Some(p.bytes + r)
  }

  // -------------------------------------------------------------- size bound

  /** Number of blocks of 256 segments. */
  function Blocks(segments: nat): nat { (segments + MAX_RUN - 1) / MAX_RUN }

  lemma {:induction false} MoreStops(segs: seq<Segment>, limit: nat)
    ensures var n := More(segs, limit);
            n == limit || n == |segs| || |Dense(segs[n], 0)| < 6
    decreases limit
  {
    hide Dense;
    if limit > 0 && segs != [] && |Dense(segs[0], 0)| >= 6 { MoreStops(segs[1..], limit - 1); }
  }

  lemma PackCost(segs: seq<Segment>, tail: Segment)
    requires segs != []
    ensures |Pack(segs, tail)| ==
      if |Dense(segs[0], 0)| == SEG then 2 + SEG * RunLength(segs) + |Pack(segs[RunLength(segs)..], tail)|
      else 1 + |Dense(segs[0], 0)| + |Pack(segs[1..], tail)|
  {
    hide Dense, RunLength, Header;
    if |Dense(segs[0], 0)| == SEG { assert |RunBody(segs, tail)| == SEG * RunLength(segs); }
  }

  lemma BlocksGrow(n: nat)
    ensures Blocks(n + MAX_RUN) == Blocks(n) + 1
    ensures n > 0 ==> Blocks(n) >= 1
    ensures Blocks(n) <= Blocks(n + 1)
  {
  }

  lemma {:induction false} BlocksMonotone(m: nat, n: nat)
    requires m <= n
    ensures Blocks(m) <= Blocks(n)
    decreases n
  {
    if m < n { BlocksMonotone(m, n - 1); BlocksGrow(n - 1); }
  }

  /** The segment that ends a run early has at most five bytes. */
  lemma RunEnder(segs: seq<Segment>)
    requires segs != [] && RunLength(segs) < MAX_RUN && RunLength(segs) < |segs|
    ensures |Dense(segs[RunLength(segs)], 0)| < 6
  {
    hide Dense, More;
    MoreStops(segs[1..], MAX_RUN - 1);
    assert segs[1..][RunLength(segs) - 1] == segs[RunLength(segs)];
  }

  /** Two bytes for each 256 segments are enough: the two bytes of a run that ends early are
      paid by the segment that ended it. */
  lemma {:induction false} SizeBound(segs: seq<Segment>, tail: Segment)
    ensures |Pack(segs, tail)| <= SEG * |segs| + 2 * Blocks(|segs|)
    decreases |segs|
  {
    hide Pack, Dense, RunLength, Blocks;
    if segs == [] {
      PackNothing(tail);
    } else {
      PackCost(segs, tail);
      if |Dense(segs[0], 0)| != SEG {
        SizeBound(segs[1..], tail);
        BlocksMonotone(|segs| - 1, |segs|);
      } else {
        var n := RunLength(segs);
        SizeBound(segs[n..], tail);
        BlocksGrow(|segs| - n);
        if n == |segs| {
          PackNothing(tail);
          BlocksGrow(n);
        } else if n < MAX_RUN {
          RunEnder(segs);
          PackCost(segs[n..], tail);
          assert segs[n..][1..] == segs[n + 1..];
          SizeBound(segs[n + 1..], tail);
          BlocksMonotone(|segs| - n - 1, |segs|);
        }
      }
    }
  }

  lemma PackNothing(tail: Segment)
    ensures Pack([], tail) == []
  {
  }

  // -------------------------------------------------------------- round trip

  /** The last run is a full one and ends with the input. */
  predicate EndsFull(segs: seq<Segment>)
    decreases |segs|
  {
    segs != [] &&
    if |Dense(segs[0], 0)| == SEG then
      var n := RunLength(segs);
      if n == |segs| then n == MAX_RUN else EndsFull(segs[n..])
    else EndsFull(segs[1..])
  }

  /** What unpacking gives back. */
  function Restored(segs: seq<Segment>, tail: Segment): seq<Byte> {
    if EndsFull(segs) then Flat(segs[..|segs| - 1]) + tail else Flat(segs)
  }

  lemma {:induction false} FlatSplit(segs: seq<Segment>, n: nat)
    requires n <= |segs|
    ensures Flat(segs) == Flat(segs[..n]) + Flat(segs[n..])
    decreases |segs|
  {
    if n == |segs| {
      assert segs[..n] == segs;
    } else {
      var k := |segs| - 1;
      FlatSplit(segs[..k], n);
      assert segs[..k][..n] == segs[..n] && segs[..k][n..] == segs[n..][..k - n];
      assert segs[n..][k - n] == segs[k];
    }
  }

  lemma RestoredSplit(segs: seq<Segment>, tail: Segment, n: nat)
    requires n < |segs| && EndsFull(segs) == EndsFull(segs[n..])
    ensures Restored(segs, tail) == Flat(segs[..n]) + Restored(segs[n..], tail)
  {
    hide EndsFull, Flat;
    FlatSplit(segs, n);
    if EndsFull(segs) {
      var k := |segs| - 1;
      Slices(segs, n, k);
      FlatSplit(segs[..k], n);
      Regroup(Flat(segs[..n]), Flat(segs[n..][..k - n]), tail);
    }
  }

  lemma Slices(segs: seq<Segment>, n: nat, k: nat)
    requires n <= k <= |segs|
    ensures segs[..k][..n] == segs[..n] && segs[..k][n..] == segs[n..][..k - n]
  {
  }

  lemma Regroup(a: seq<Byte>, b: seq<Byte>, c: seq<Byte>)
    ensures a + b + c == a + (b + c)
  {
  }

  lemma Halves(h: nat)
    ensures (2 * h) % 2 == 0 && (2 * h) / 2 == h && (1 + 2 * h) % 2 == 1 && (1 + 2 * h) / 2 == h
  {
  }

  lemma ExpandZero(h: nat, i: nat, src: seq<Byte>, p: Piece, stray: Byte)
    requires i < SEG && Expand(h, i + 1, src, stray) == Some(p)
    ensures Expand(2 * h, i, src, stray) == Some(Piece([0] + p.bytes, p.used))
  {
    Halves(h);
  }

  lemma ExpandByte(b: Byte, h: nat, i: nat, src: seq<Byte>, p: Piece, stray: Byte)
    requires i < SEG && Expand(h, i + 1, src, stray) == Some(p)
    ensures Expand(1 + 2 * h, i, [b] + src, stray) == Some(Piece([b] + p.bytes, p.used + 1))
  {
    Halves(h);
    assert ([b] + src)[1..] == src;
  }

  lemma ExpandStep(b: Byte, h: nat, i: nat, src: seq<Byte>, p: Piece, stray: Byte)
    requires i < SEG && Expand(h, i + 1, src, stray) == Some(p)
    ensures Expand(One(b != 0) + 2 * h, i, (if b != 0 then [b] else []) + src, stray) ==
            Some(Piece([b] + p.bytes, p.used + One(b != 0)))
  {
    hide Expand;
    if b != 0 {
      ExpandByte(b, h, i, src, p, stray);
    } else {
      ExpandZero(h, i, src, p, stray);
      assert [] + src == src;
    }
  }

  lemma {:induction false} ExpandDense(g: Segment, i: nat, rest: seq<Byte>, stray: Byte)
    requires i <= SEG
    ensures Expand(Header(g, i), i, Dense(g, i) + rest, stray) == Some(Piece(g[i..], |Dense(g, i)|))
    decreases SEG - i
  {
    hide Expand, Dense, Header;
    if i < SEG {
      DenseStep(g, i, rest);
      ExpandDense(g, i + 1, rest, stray);
      ExpandStep(g[i], Header(g, i + 1), i, Dense(g, i + 1) + rest, Piece(g[i + 1..], |Dense(g, i + 1)|), stray);
    } else {
      ExpandEnd(g, rest, stray);
    }
  }

  lemma ExpandEnd(g: Segment, rest: seq<Byte>, stray: Byte)
    ensures Expand(Header(g, SEG), SEG, Dense(g, SEG) + rest, stray) == Some(Piece(g[SEG..], |Dense(g, SEG)|))
  {
    assert g[SEG..] == [];
  }

  lemma DenseStep(g: Segment, i: nat, rest: seq<Byte>)
    requires i < SEG
    ensures Dense(g, i) + rest == (if g[i] != 0 then [g[i]] else []) + (Dense(g, i + 1) + rest)
    ensures |Dense(g, i)| == |Dense(g, i + 1)| + One(g[i] != 0)
    ensures Header(g, i) == One(g[i] != 0) + 2 * Header(g, i + 1)
    ensures g[i..] == [g[i]] + g[i + 1..]
  {
  }

  lemma UnpackRun(n: nat, body: seq<Byte>, rest: seq<Byte>, stray: Byte)
    requires 1 <= n <= MAX_RUN && |body| == SEG * n
    requires Unpack(rest, stray).Some?
    ensures Unpack([0xff, (n - 1) as Byte] + body + rest, stray) == Some(body + Unpack(rest, stray).value)
  {
    var src := [0xff, (n - 1) as Byte] + body + rest;
    assert src[2 + SEG * n..] == rest && src[2..2 + SEG * n] == body;
  }

  lemma UnpackSmall(g: Segment, rest: seq<Byte>, stray: Byte)
    requires |Dense(g, 0)| < SEG && Unpack(rest, stray).Some?
    ensures Header(g, 0) < 255
    ensures Unpack([Header(g, 0) as Byte] + Dense(g, 0) + rest, stray) == Some(g + Unpack(rest, stray).value)
  {
    hide Expand, Header, Dense;
    HeaderFits(g, 0);
    hide Pow2;
    ExpandDense(g, 0, rest, stray);
    var src := [Header(g, 0) as Byte] + Dense(g, 0) + rest;
    assert src[1..] == Dense(g, 0) + rest && g[0..] == g;
    assert src[1 + |Dense(g, 0)|..] == rest;
    if rest == [] { assert Unpack(rest, stray) == Some([]) && g + [] == g; }
  }

  lemma {:induction false} UnpackPack(segs: seq<Segment>, tail: Segment, stray: Byte)
    ensures Unpack(Pack(segs, tail), stray) == Some(Restored(segs, tail))
    decreases |segs|
  {
    hide Dense, RunLength, Header, Expand, Unpack, EndsFull, Flat;
    if segs == [] {
      NothingRestored(tail, stray);
    } else if |Dense(segs[0], 0)| == SEG {
      var n := RunLength(segs);
      UnpackPack(segs[n..], tail, stray);
      BodyLength(segs, tail);
      UnpackRun(n, RunBody(segs, tail), Pack(segs[n..], tail), stray);
      RestoredRun(segs, tail);
    } else {
      UnpackPack(segs[1..], tail, stray);
      UnpackSmall(segs[0], Pack(segs[1..], tail), stray);
      RestoredSmall(segs, tail);
    }
  }

  lemma BodyLength(segs: seq<Segment>, tail: Segment)
    requires segs != []
    ensures |RunBody(segs, tail)| == SEG * RunLength(segs)
  {
  }

  lemma NothingRestored(tail: Segment, stray: Byte)
    ensures Unpack([], stray) == Some([]) && Restored([], tail) == []
  {
  }

  lemma RestoredRun(segs: seq<Segment>, tail: Segment)
    requires segs != [] && |Dense(segs[0], 0)| == SEG
    ensures Restored(segs, tail) == RunBody(segs, tail) + Restored(segs[RunLength(segs)..], tail)
  {
    hide Dense, RunLength, Flat;
    var n := RunLength(segs);
    if n < |segs| {
      RestoredSplit(segs, tail, n);
    } else {
      assert segs[n..] == [] && segs[..n] == segs;
      NothingRestored(tail, 0);
    }
  }

  lemma RestoredSmall(segs: seq<Segment>, tail: Segment)
    requires segs != [] && |Dense(segs[0], 0)| != SEG
    ensures Restored(segs, tail) == segs[0] + Restored(segs[1..], tail)
  {
    hide Dense, RunLength;
    assert Flat(segs[..1]) == segs[0] by { assert segs[..1][..0] == []; }
    if |segs| > 1 {
      RestoredSplit(segs, tail, 1);
    } else {
      assert segs[1..] == [] && segs[..1] == segs;
    }
  }

  // ------------------------------------------------------------- byte strings

  function Padding(n: nat): nat { (SEG - n % SEG) % SEG }

  /** The input padded with zeros to whole segments. */
  function Pad(s: seq<Byte>): (r: seq<Byte>)
    ensures |r| == |s| + Padding(|s|) && |r| % SEG == 0
  {
    s + Zeros(Padding(|s|))
  }

  function Split(s: seq<Byte>): (segs: seq<Segment>)
    requires |s| % SEG == 0
    ensures |segs| == |s| / SEG
  {
    seq(|s| / SEG, k requires 0 <= k < |s| / SEG => s[SEG * k..SEG * k + SEG])
  }

  lemma SplitLast(s: seq<Byte>)
    requires |s| % SEG == 0 && s != []
    ensures (|s| - SEG) % SEG == 0 && Split(s) == Split(s[..|s| - SEG]) + [s[|s| - SEG..]]
  {
    var n := |s| - SEG;
    var k := n / SEG;
    var front := s[..n];
    assert |s| / SEG == k + 1 && SEG * k == n;
    forall j | 0 <= j < k ensures Split(s)[j] == Split(front)[j] {
      assert SEG * j + SEG <= n;
      assert front[SEG * j..SEG * j + SEG] == s[SEG * j..SEG * j + SEG];
    }
    assert Split(s)[k] == s[n..];
  }

  lemma {:induction false} FlatOfSplit(s: seq<Byte>)
    requires |s| % SEG == 0
    ensures Flat(Split(s)) == s
    decreases |s|
  {
    if s == [] {
      assert Split(s) == [];
    } else {
      var front, last := s[..|s| - SEG], s[|s| - SEG..];
      SplitLast(s);
      FlatOfSplit(front);
      hide Split;
      assert (Split(front) + [last])[..|Split(front)|] == Split(front);
      assert front + last == s;
    }
  }

  /** The last segment of the input as it lies in memory, followed by the bytes `beyond`. */
  function Tail(s: seq<Byte>, beyond: seq<Byte>): Segment
    requires |beyond| >= SEG
  {
    var from := |Pad(s)| - SEG;
    if s == [] then beyond[..SEG] else (s + beyond)[from..from + SEG]
  }

  function PackBytes(s: seq<Byte>, beyond: seq<Byte>): seq<Byte>
    requires |beyond| >= SEG
  {
    Pack(Split(Pad(s)), Tail(s, beyond))
  }

  /** Does a full run end on a segment that had to be padded? */
  predicate FullRunOnPadding(s: seq<Byte>) {
    |s| % SEG != 0 && EndsFull(Split(Pad(s)))
  }

  /** Unpacking gives back the padded input, exactly when no full run ends on the padding, or
      the memory behind the input happens to be zero. */
  lemma RoundTripIff(s: seq<Byte>, beyond: seq<Byte>, stray: Byte)
    requires |beyond| >= SEG
    ensures Unpack(PackBytes(s, beyond), stray) == Some(Pad(s)) <==>
            (FullRunOnPadding(s) ==> beyond[..Padding(|s|)] == Zeros(Padding(|s|)))
  {
    hide Pack, Unpack, EndsFull, Flat, Split;
    var segs, tail := Split(Pad(s)), Tail(s, beyond);
    UnpackPack(segs, tail, stray);
    FlatOfSplit(Pad(s));
    if EndsFull(segs) { LastSegment(s, beyond); }
  }

  /** Inputs of whole segments always come back. */
  lemma RoundTrip(s: seq<Byte>, beyond: seq<Byte>, stray: Byte)
    requires |s| % SEG == 0 && |beyond| >= SEG
    ensures Unpack(PackBytes(s, beyond), stray) == Some(s)
  {
    hide Pack, Unpack, EndsFull, Flat, Split;
    RoundTripIff(s, beyond, stray);
    assert Pad(s) == s;
  }

  lemma LastSegment(s: seq<Byte>, beyond: seq<Byte>)
    requires |beyond| >= SEG && EndsFull(Split(Pad(s)))
    ensures var segs := Split(Pad(s));
            s != [] && segs != [] &&
            (Flat(segs[..|segs| - 1]) + Tail(s, beyond) == Pad(s) <==> beyond[..Padding(|s|)] == Zeros(Padding(|s|)))
  {
    hide Pack, Unpack, EndsFull, Split;
    var p, segs := Pad(s), Split(Pad(s));
    NotEmpty(segs);
    FlatOfSplit(p);
    var n, k := |p| - SEG, |segs| - 1;
    HeadOfFlat(segs);
    TailParts(s, beyond);
    hide Flat, Pad, Tail;
    SameTail(s, Flat(segs[..k]), Zeros(Padding(|s|)), beyond[..Padding(|s|)]);
  }

  lemma HeadOfFlat(segs: seq<Segment>)
    requires segs != []
    ensures Flat(segs[..|segs| - 1]) == Flat(segs)[..|Flat(segs)| - SEG]
  {
  }

  lemma TailParts(s: seq<Byte>, beyond: seq<Byte>)
    requires |beyond| >= SEG && s != []
    ensures var n := |Pad(s)| - SEG;
            && 0 <= n <= |s| && Pad(s) == s + Zeros(Padding(|s|)) && Pad(s)[..n] == s[..n]
            && Tail(s, beyond) == s[n..] + beyond[..Padding(|s|)]
  {
  }

  lemma SameTail(s: seq<Byte>, head: seq<Byte>, zeros: seq<Byte>, after: seq<Byte>)
    requires |zeros| == |after| && |head| <= |s| && head == s[..|head|]
    ensures head + (s[|head|..] + after) == s + zeros <==> after == zeros
  {
    var x := head + (s[|head|..] + after);
    assert x == s + after;
    assert x[|s|..] == after && (s + zeros)[|s|..] == zeros;
  }

  lemma NotEmpty(segs: seq<Segment>)
    requires EndsFull(segs)
    ensures segs != []
  {
  }

  /** The packed size is at most that of the padded input and two bytes for each 2048 bytes. */
  lemma PackedSize(s: seq<Byte>, beyond: seq<Byte>)
    requires |beyond| >= SEG
    ensures |PackBytes(s, beyond)| <= |Pad(s)| + 2 * ((|s| + 2047) / 2048)
  {
    hide Pack;
    SizeBound(Split(Pad(s)), Tail(s, beyond));
    BlocksOfBytes(|s|);
  }

  lemma PaddedSegments(n: nat)
    ensures (n + Padding(n)) / SEG == (n + 7) / 8
  {
    var q, r := n / 8, n % 8;
    assert n == 8 * q + r;
    if r == 0 { assert n + Padding(n) == 8 * q; } else { assert n + Padding(n) == 8 * (q + 1); }
  }

  lemma DivTwice(x: nat)
    ensures x / 8 / 256 == x / 2048
  {
    var k, r := x / 2048, x % 2048;
    var m, t := r / 8, r % 8;
    assert x == 8 * (256 * k + m) + t;
    assert x / 8 == 256 * k + m;
  }

  lemma BlocksOfBytes(n: nat)
    ensures Blocks((n + Padding(n)) / SEG) == (n + 2047) / 2048
  {
    hide Padding;
    PaddedSegments(n);
    DivTwice(n + 2047);
    assert n + 2047 == (n + 7) + 8 * 255;
    assert (n + 2047) / 8 == (n + 7) / 8 + 255;
  }
}
