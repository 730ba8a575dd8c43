/** The two worked examples of zero packing (lualib/sproto/README.md), byte by byte, and what the bits
    of a header mean.
 */
module SprotoPackExamples {
  import opened Basics
  import opened SprotoPack

  /** Bit `i` of the header, the low one first, says whether byte `i` is not zero. */
  lemma {:induction false} HeaderBit(g: Segment, from: nat, i: nat)
    requires from <= i < SEG
    ensures Pow2(i - from) > 0 && Header(g, from) / Pow2(i - from) % 2 == One(g[i] != 0)
    decreases i - from
  {
    var rest := Header(g, from + 1);
    if from < i {
      HeaderBit(g, from + 1, i);
      Halves(One(g[from] != 0), rest, Pow2(i - from - 1));
    }
  }

  lemma Halves(b: nat, h: nat, p: nat)
    requires b <= 1 && p > 0
    ensures (b + 2 * h) / (2 * p) == h / p
  {
    var q, r := h / p, h % p;
    assert h == q * p + r;
    assert b + 2 * h == q * (2 * p) + (b + 2 * r);
    var k := (b + 2 * h) / (2 * p) - q;
    assert k * (2 * p) == b + 2 * r - (b + 2 * h) % (2 * p);
    MultipleIsLarge(k, 2 * p);
  }

  function Kept(b: Byte): seq<Byte> { if b != 0 then [b] else [] }

  lemma Unrolled(g: Segment)
    ensures Dense(g, 0) == Kept(g[0]) + (Kept(g[1]) + (Kept(g[2]) + (Kept(g[3]) + (Kept(g[4]) + (Kept(g[5]) + (Kept(g[6]) + Kept(g[7])))))))
    ensures Header(g, 0) == One(g[0] != 0) + 2 * One(g[1] != 0) + 4 * One(g[2] != 0) + 8 * One(g[3] != 0)
                            + 16 * One(g[4] != 0) + 32 * One(g[5] != 0) + 64 * One(g[6] != 0) + 128 * One(g[7] != 0)
  {
    assert Dense(g, 7) == Kept(g[7]) && Header(g, 7) == One(g[7] != 0);
    assert Dense(g, 6) == Kept(g[6]) + Dense(g, 7) && Header(g, 6) == One(g[6] != 0) + 2 * Header(g, 7);
    assert Dense(g, 5) == Kept(g[5]) + Dense(g, 6) && Header(g, 5) == One(g[5] != 0) + 2 * Header(g, 6);
    assert Dense(g, 4) == Kept(g[4]) + Dense(g, 5) && Header(g, 4) == One(g[4] != 0) + 2 * Header(g, 5);
    assert Dense(g, 3) == Kept(g[3]) + Dense(g, 4) && Header(g, 3) == One(g[3] != 0) + 2 * Header(g, 4);
    assert Dense(g, 2) == Kept(g[2]) + Dense(g, 3) && Header(g, 2) == One(g[2] != 0) + 2 * Header(g, 3);
    assert Dense(g, 1) == Kept(g[1]) + Dense(g, 2) && Header(g, 1) == One(g[1] != 0) + 2 * Header(g, 2);
  }

  /** A segment with a zero, in front of others. */
  lemma PackOne(g: Segment, segs: seq<Segment>, tail: Segment)
    requires |Dense(g, 0)| < SEG
    ensures Header(g, 0) < 255 && Pack([g] + segs, tail) == [Header(g, 0) as Byte] + Dense(g, 0) + Pack(segs, tail)
  {
    hide Dense, Header;
    HeaderFits(g, 0);
    assert ([g] + segs)[1..] == segs;
  }

  const FIRST: Segment := [0x08, 0, 0, 0, 0x03, 0, 0x02, 0]

  const SECOND: Segment := [0x19, 0, 0, 0, 0xaa, 0x01, 0, 0]

  lemma ZerosDense()
    ensures Dense(FIRST, 0) == [0x08, 0x03, 0x02] && Header(FIRST, 0) == 0x51
    ensures Dense(SECOND, 0) == [0x19, 0xaa, 0x01] && Header(SECOND, 0) == 0x31
  {
    hide Dense, Header;
    Unrolled(FIRST);
    Unrolled(SECOND);
  }

  /** Two segments with zeros, packed and as they come back. */
  lemma TwoSegments(a: Segment, b: Segment, tail: Segment)
    requires |Dense(a, 0)| < SEG && |Dense(b, 0)| < SEG
    ensures Header(a, 0) < 255 && Header(b, 0) < 255
    ensures Pack([a, b], tail) == [Header(a, 0) as Byte] + Dense(a, 0) + ([Header(b, 0) as Byte] + Dense(b, 0))
  {
    hide Dense, Header, Pack;
    PackNothing(tail);
    PackOne(b, [], tail);
    PackOne(a, [b], tail);
    assert [b] + [] == [b] && [a] + [b] == [a, b];
    assert [Header(b, 0) as Byte] + Dense(b, 0) + [] == [Header(b, 0) as Byte] + Dense(b, 0);
  }

  lemma TwoRestored(a: Segment, b: Segment, tail: Segment)
    requires |Dense(a, 0)| < SEG && |Dense(b, 0)| < SEG
    ensures Restored([a, b], tail) == a + b
  {
    hide Dense;
    assert [a, b][1..] == [b] && [b][1..] == [] && !EndsFull([b]);
    assert [a, b][..1] == [a] && [a][..0] == [] && Flat([a]) == [] + a;
  }

  /** The first example: two segments with zeros. */
  lemma PackZeros(tail: Segment, stray: Byte)
    ensures Pack([FIRST, SECOND], tail) == [0x51, 0x08, 0x03, 0x02, 0x31, 0x19, 0xaa, 0x01]
    ensures Unpack([0x51, 0x08, 0x03, 0x02, 0x31, 0x19, 0xaa, 0x01], stray) == Some(FIRST + SECOND)
  {
    hide Dense, Header, Pack, Unpack, Restored;
    ZerosDense();
    TwoSegments(FIRST, SECOND, tail);
    TwoRestored(FIRST, SECOND, tail);
    UnpackPack([FIRST, SECOND], tail, stray);
  }

  const EIGHT: Segment := [0x8a, 0x8a, 0x8a, 0x8a, 0x8a, 0x8a, 0x8a, 0x8a]

  const SIX: Segment := [0x8a, 0x8a, 0x8a, 0x8a, 0x8a, 0x8a, 0, 0]

  const FOUR: seq<Segment> := [EIGHT, EIGHT, EIGHT, SIX]

  lemma FourRun()
    ensures |Dense(EIGHT, 0)| == SEG && RunLength(FOUR) == 4
  {
    hide Dense, Header;
    Unrolled(EIGHT);
    Unrolled(SIX);
    assert |Dense(EIGHT, 0)| == 8 && |Dense(SIX, 0)| == 6;
    assert FOUR[1..] == [EIGHT, EIGHT, SIX] && [EIGHT, EIGHT, SIX][1..] == [EIGHT, SIX] && [EIGHT, SIX][1..] == [SIX];
    assert More([SIX], 253) == 1 && More([EIGHT, SIX], 254) == 2 && More([EIGHT, EIGHT, SIX], 255) == 3;
  }

  lemma FourFlat()
    ensures Flat(FOUR) == EIGHT + EIGHT + EIGHT + SIX
  {
    assert FOUR[..3] == [EIGHT, EIGHT, EIGHT] && [EIGHT, EIGHT, EIGHT][..2] == [EIGHT, EIGHT] && [EIGHT, EIGHT][..1] == [EIGHT];
    assert Flat([EIGHT]) == [] + EIGHT && Flat([EIGHT, EIGHT]) == Flat([EIGHT]) + EIGHT;
    assert Flat([EIGHT, EIGHT, EIGHT]) == Flat([EIGHT, EIGHT]) + EIGHT && Flat(FOUR) == Flat([EIGHT, EIGHT, EIGHT]) + SIX;
  }

  /** The second example: thirty bytes without zeros, which are one run of four segments. */
  lemma PackRun(tail: Segment)
    ensures Pack(FOUR, tail) == [0xff, 0x03] + (EIGHT + EIGHT + EIGHT + SIX)
  {
    hide Dense, Header, Flat, RunLength;
    FourRun();
    FourFlat();
    assert FOUR[..4] == FOUR && FOUR[4..] == [];
    PackNothing(tail);
    assert Pack(FOUR, tail) == [0xff, 0x03] + Flat(FOUR) + [];
  }

  const THIRTY: seq<Byte> := seq(30, _ => 0x8a)

  lemma PackThirty(beyond: seq<Byte>)
    requires |beyond| >= SEG
    ensures PackBytes(THIRTY, beyond) == [0xff, 0x03] + THIRTY + [0, 0]
  {
    hide Pack;
    PackRun(Tail(THIRTY, beyond));
    var s := Pad(THIRTY);
    assert Padding(30) == 2 && |s| == 32;
    assert s[8 * 0..8 * 0 + 8] == EIGHT && s[8 * 1..8 * 1 + 8] == EIGHT && s[8 * 2..8 * 2 + 8] == EIGHT && s[8 * 3..8 * 3 + 8] == SIX;
    assert Split(s) == FOUR;
    assert THIRTY + [0, 0] == EIGHT + EIGHT + EIGHT + SIX;
    assert [0xff, 0x03] + (EIGHT + EIGHT + EIGHT + SIX) == [0xff, 0x03] + THIRTY + [0, 0];
  }
}
