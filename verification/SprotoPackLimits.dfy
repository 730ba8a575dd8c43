/** Where zero packing meets its limits (lualib/sproto/sproto.c, lualib/sproto/lsproto.c): the exact
    packed size, the inputs for which lpack's allowance is too small, and an input that does not
    come back.
 */
module SprotoPackLimits {
  import opened Basics
  import opened SprotoPack
  import opened SprotoPacker

  // ---------------------------------------------------------------- the exact size

  /** The number of runs. */
  function Runs(segs: seq<Segment>): nat
    decreases |segs|
  {
    if segs == [] then 0
    else if |Dense(segs[0], 0)| == SEG then 1 + Runs(segs[RunLength(segs)..])
    else Runs(segs[1..])
  }

  /** The zeros that packing drops: all but one of each segment outside the runs. */
  function Saved(segs: seq<Segment>): nat
    decreases |segs|
  {
    if segs == [] then 0
    else if |Dense(segs[0], 0)| == SEG then Saved(segs[RunLength(segs)..])
    else SEG - 1 - |Dense(segs[0], 0)| + Saved(segs[1..])
  }

  lemma {:induction false} SizeIs(segs: seq<Segment>, tail: Segment)
    ensures |Pack(segs, tail)| + Saved(segs) == SEG * |segs| + 2 * Runs(segs)
    decreases |segs|
  {
    hide Pack, Dense, RunLength;
    if segs == [] {
      PackNothing(tail);
    } else {
      PackCost(segs, tail);
      SizeIs(if |Dense(segs[0], 0)| == SEG then segs[RunLength(segs)..] else segs[1..], tail);
    }
  }

  // ------------------------------------------------------------ lpack's allowance

  /** The size that lpack allows for `n` bytes. */
  function Allowance(n: nat): nat { (n + 2047) / 2048 * 2 + n }

  /** The padding and the heads of the runs are more than the zeros that are dropped and the
      allowance make up for. */
  predicate TooLarge(s: seq<Byte>) {
    var segs := Split(Pad(s));
    Padding(|s|) + 2 * Runs(segs) > Saved(segs) + 2 * ((|s| + 2047) / 2048)
  }

  /** lpack raises its error on exactly these inputs. */
  lemma TooLargeIff(s: seq<Byte>, beyond: seq<Byte>)
    requires |beyond| >= SEG
    ensures |PackBytes(s, beyond)| > Allowance(|s|) <==> TooLarge(s)
  {
    hide Pack, Runs, Saved;
    SizeIs(Split(Pad(s)), Tail(s, beyond));
    SegmentsOfPad(s);
  }

  /** Whole segments always fit. */
  lemma WholeFits(s: seq<Byte>)
    requires |s| % SEG == 0
    ensures !TooLarge(s)
  {
    hide Pack, PackBytes, TooLarge;
    var beyond := Zeros(SEG);
    PackedSize(s, beyond);
    TooLargeIff(s, beyond);
  }

  predicate HasZero(g: Segment) { exists i :: 0 <= i < SEG && g[i] == 0 }

  /** So does every input in which each eight bytes have a zero, whatever its length. */
  lemma ZerosFit(s: seq<Byte>)
    requires forall k :: 0 <= k < |Split(Pad(s))| ==> HasZero(Split(Pad(s))[k])
    ensures !TooLarge(s)
  {
    hide Dense, Split;
    var segs := Split(Pad(s));
    forall k | 0 <= k < |segs| ensures |Dense(segs[k], 0)| < SEG {
      var z :| 0 <= z < SEG && segs[k][z] == 0;
      ZeroIsMissing(segs[k], 0, z);
    }
    NoRuns(segs);
    SegmentsOfPad(s);
    if s != [] {
      var k := |segs| - 1;
      SegmentAt(s, k);
      FewBytes(segs[k], Padding(|s|));
    }
  }

  lemma {:induction false} NoRuns(segs: seq<Segment>)
    requires forall k :: 0 <= k < |segs| ==> |Dense(segs[k], 0)| < SEG
    ensures Runs(segs) == 0
    ensures segs != [] ==> Saved(segs) >= SEG - 1 - |Dense(segs[|segs| - 1], 0)|
    decreases |segs|
  {
    hide Dense;
    if segs != [] { NoRuns(segs[1..]); }
  }

  /** A segment that ends with `z` zeros. */
  lemma FewBytes(g: Segment, z: nat)
    requires z < SEG && forall i :: SEG - z <= i < SEG ==> g[i] == 0
    ensures |Dense(g, 0)| <= SEG - z
  {
    Ending(g, 0, z);
  }

  lemma {:induction false} Ending(g: Segment, i: nat, z: nat)
    requires z < SEG && i <= SEG && forall k :: SEG - z <= k < SEG ==> g[k] == 0
    ensures |Dense(g, i)| <= if i <= SEG - z then SEG - z - i else 0
    ensures (forall k :: i <= k < SEG - z ==> g[k] != 0) ==> |Dense(g, i)| == if i <= SEG - z then SEG - z - i else 0
    decreases SEG - i
  {
    if i < SEG { Ending(g, i + 1, z); }
  }

  /** Nine bytes that are not zero pack to twelve, one more than lpack allows. */
  lemma NineBytesRefused(s: seq<Byte>, beyond: seq<Byte>)
    requires |s| == 9 && (forall i :: 0 <= i < |s| ==> s[i] != 0) && |beyond| >= SEG
    ensures TooLarge(s) && |PackBytes(s, beyond)| == 12 && Allowance(|s|) == 11
  {
    hide Dense, Pack, Runs, Saved, RunLength;
    var segs := Split(Pad(s));
    SegmentsOfPad(s);
    SegmentAt(s, 0);
    SegmentAt(s, 1);
    assert segs[0] == s[0..8] && segs[1] == s[8..] + Zeros(7);
    Ending(segs[0], 0, 0);
    Ending(segs[1], 0, 7);
    assert segs == [segs[0], segs[1]];
    FullThenOne(segs[0], segs[1]);
    SizeIs(segs, Tail(s, beyond));
  }

  lemma FullThenOne(a: Segment, b: Segment)
    requires |Dense(a, 0)| == SEG && |Dense(b, 0)| == 1
    ensures Runs([a, b]) == 1 && Saved([a, b]) == 6
  {
    hide Dense;
    assert [a, b][1..] == [b] && [b][1..] == [];
    assert More([b], MAX_RUN - 1) == 0;
    assert RunLength([a, b]) == 1;
    assert Runs([b]) == Runs([]) == 0 && Saved([b]) == 6 + Saved([]);
  }

  // --------------------------------------------------------- a full run on padding

  /** 2047 bytes that are not zero, in front of memory that is not zero: the last run is a full one
      and ends on the padding, and unpacking does not give the padded input. */
  lemma FullRunSpoils(s: seq<Byte>, beyond: seq<Byte>, stray: Byte)
    requires |s| == 2047 && (forall i :: 0 <= i < |s| ==> s[i] != 0) && |beyond| >= SEG && beyond[0] != 0
    ensures FullRunOnPadding(s)
    ensures Unpack(PackBytes(s, beyond), stray) != Some(Pad(s))
  {
    hide Dense, Split, PackBytes, Unpack, More;
    var segs := Split(Pad(s));
    SegmentsOfPad(s);
    forall k | 0 <= k < |segs| ensures |Dense(segs[k], 0)| >= 7 && (k == 0 ==> |Dense(segs[k], 0)| == SEG) {
      SegmentAt(s, k);
      Ending(segs[k], 0, if SEG * k + SEG <= |s| then 0 else 1);
    }
    MoreExact(segs[1..], MAX_RUN - 1, MAX_RUN - 1);
    RoundTripIff(s, beyond, stray);
    assert beyond[..1] != Zeros(1);
  }
}
