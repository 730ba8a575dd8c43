/** Character sets as the 32-byte bit maps that the compiler keeps, and `charsettype`
    (3rd/lpeg-0.12.2/lpcode.c), which recognises the empty, the full and the one-element sets.
 */
module PegCharset {
  import opened Peg
  import opened PegCodegen

  const CHARSETSIZE: nat := 32

  type Bitmap = s: seq<bv8> | |s| == CHARSETSIZE witness seq(CHARSETSIZE, _ => 0)

  /** Bit `k` of a byte. */
  predicate Bit(b: bv8, k: nat)
    requires k < 8
  {
    match k
    case 0 => b & 0x01 != 0
    case 1 => b & 0x02 != 0
    case 2 => b & 0x04 != 0
    case 3 => b & 0x08 != 0
    case 4 => b & 0x10 != 0
    case 5 => b & 0x20 != 0
    case 6 => b & 0x40 != 0
    case _ => b & 0x80 != 0
  }

  /** testchar */
  predicate Has(cs: Bitmap, c: Byte) { Bit(cs[c as nat / 8], c as nat % 8) }

  /** testchar(st, c) is st[c >> 3] & (1 << (c & 7)). */
  lemma TestChar(cs: Bitmap, c: Byte)
    ensures Has(cs, c) <==> cs[c as nat / 8] & ((1 as bv8) << (c as nat % 8)) != 0
  {
    var b, k := cs[c as nat / 8], c as nat % 8;
    match k
    case 0 => case 1 => case 2 => case 3 => case 4 => case 5 => case 6 => case _ => assert k == 7;
  }

  /** The set that a bit map stands for. */
  ghost function Members(cs: Bitmap): Charset {
    set c: Byte | c in FULL && Has(cs, c)
  }

  /** Only one bit is set in a byte: its number. */
  function BitNumber(b0: bv8): (k: nat)
    ensures k < 8
  {
    var k1, b1 := if b0 & 0xF0 != 0 then 4 else 0, if b0 & 0xF0 != 0 then b0 >> 4 else b0;
    var k2, b2 := if b1 & 0x0C != 0 then 2 else 0, if b1 & 0x0C != 0 then b1 >> 2 else b1;
    k1 + k2 + if b2 & 0x02 != 0 then 1 else 0
  }

  ghost predicate OneBit(b: bv8) { b != 0 && b & (b - 1) == 0 }

  lemma NoBits(b: bv8, k: nat)
    requires k < 8
    ensures b == 0 ==> !Bit(b, k)
    ensures b == 0xFF ==> Bit(b, k)
  {
  }

  lemma TheBit(b: bv8, k: nat)
    requires k < 8 && OneBit(b)
    ensures Bit(b, k) <==> k == BitNumber(b)
  {
    OneBitIs(b);
  }

  lemma OneBitIs(b: bv8)
    requires OneBit(b)
    ensures b == 1 || b == 2 || b == 4 || b == 8 || b == 16 || b == 32 || b == 64 || b == 128
  {
  }

  /** A byte that is not empty has a bit, and a second one if it has more than one. */
  lemma SomeBit(b: bv8) returns (k: nat)
    requires b != 0
    ensures k < 8 && Bit(b, k)
  {
    k := if b & 1 != 0 then 0 else if b & 2 != 0 then 1 else if b & 4 != 0 then 2 else if b & 8 != 0 then 3
         else if b & 16 != 0 then 4 else if b & 32 != 0 then 5 else if b & 64 != 0 then 6 else 7;
    assert b & 128 != 0 || k < 7;
  }

  lemma TwoBits(b: bv8) returns (k: nat, l: nat)
    requires b != 0 && !OneBit(b)
    ensures k < 8 && l < 8 && k != l && Bit(b, k) && Bit(b, l)
  {
    k := SomeBit(b);
    l := if k != 0 && Bit(b, 0) then 0 else if k != 1 && Bit(b, 1) then 1 else if k != 2 && Bit(b, 2) then 2
         else if k != 3 && Bit(b, 3) then 3 else if k != 4 && Bit(b, 4) then 4 else if k != 5 && Bit(b, 5) then 5
         else if k != 6 && Bit(b, 6) then 6 else 7;
    assert (k != 7 && Bit(b, 7)) || l < 7;
  }

  lemma MissingBit(b: bv8) returns (k: nat)
    requires b != 0xFF
    ensures k < 8 && !Bit(b, k)
  {
    k := if !Bit(b, 0) then 0 else if !Bit(b, 1) then 1 else if !Bit(b, 2) then 2 else if !Bit(b, 3) then 3
         else if !Bit(b, 4) then 4 else if !Bit(b, 5) then 5 else if !Bit(b, 6) then 6 else 7;
    assert !Bit(b, 7) || k < 7;
  }

  /** Character `8 * i + k`. */
  function Char(i: nat, k: nat): Byte
    requires i < CHARSETSIZE && k < 8
  {
    (8 * i + k) as Byte
  }

  lemma CharBit(cs: Bitmap, i: nat, k: nat)
    requires i < CHARSETSIZE && k < 8
    ensures Has(cs, Char(i, k)) <==> Bit(cs[i], k)
  {
  }

  lemma CharOf(c: Byte) returns (i: nat, k: nat)
    ensures i < CHARSETSIZE && k < 8 && c == Char(i, k) && i == c as nat / 8
  {
    i, k := c as nat / 8, c as nat % 8;
  }

  /** Two characters in, one out. */
  lemma GenericIf(cs: Charset, x: Byte, y: Byte, z: Byte)
    requires cs <= FULL && x in cs && y in cs && x != y && z !in cs && z in FULL
    ensures Kind(cs) == Generic
  {
    forall c ensures cs != {c} {
      if c == x { assert y in cs; } else { assert x in cs; }
    }
  }

  ghost predicate Below(cs: Bitmap, i: nat, count: nat, candidate: int) {
    && (count == 0 ==> forall c: Byte :: c as nat < 8 * i ==> !Has(cs, c))
    && (count == 1 ==>
          && 0 <= candidate < i && candidate < CHARSETSIZE && OneBit(cs[candidate])
          && forall c: Byte :: c as nat < 8 * i ==> (Has(cs, c) <==> c == Char(candidate, BitNumber(cs[candidate]))))
    && (count > 1 ==> count == 8 * i && forall c: Byte :: c as nat < 8 * i ==> Has(cs, c))
  }

  lemma NextEmpty(cs: Bitmap, i: nat, count: nat, candidate: int)
    requires i < CHARSETSIZE && Below(cs, i, count, candidate) && cs[i] == 0 && count <= 1
    ensures Below(cs, i + 1, count, candidate)
  {
    hide Has, Bit, BitNumber, OneBit;
    forall c: Byte | 8 * i <= c as nat < 8 * i + 8 ensures !Has(cs, c) {
      var j, k := CharOf(c);
      CharBit(cs, i, k);
      NoBits(cs[i], k);
    }
  }

  lemma NextFull(cs: Bitmap, i: nat, count: nat, candidate: int)
    requires i < CHARSETSIZE && Below(cs, i, count, candidate) && cs[i] == 0xFF && count >= 8 * i
    ensures Below(cs, i + 1, count + 8, candidate) && (count == 0 || count == 8 * i)
  {
    hide Has, Bit, BitNumber, OneBit;
    forall c: Byte | 8 * i <= c as nat < 8 * i + 8 ensures Has(cs, c) {
      var j, k := CharOf(c);
      CharBit(cs, i, k);
      NoBits(cs[i], k);
    }
  }

  lemma NextSingle(cs: Bitmap, i: nat, candidate: int)
    requires i < CHARSETSIZE && Below(cs, i, 0, candidate) && OneBit(cs[i])
    ensures Below(cs, i + 1, 1, i)
  {
    hide Has, Bit, BitNumber, OneBit;
    forall c: Byte | 8 * i <= c as nat < 8 * i + 8 ensures Has(cs, c) <==> c == Char(i, BitNumber(cs[i])) {
      var j, k := CharOf(c);
      CharBit(cs, i, k);
      TheBit(cs[i], k);
    }
  }

  lemma IsMember(cs: Bitmap, c: Byte)
    ensures c in FULL && (c in Members(cs) <==> Has(cs, c)) && Members(cs) <= FULL
  {
  }

  lemma Mixed(cs: Bitmap, x: Byte, y: Byte, z: Byte)
    requires Has(cs, x) && Has(cs, y) && x != y && !Has(cs, z)
    ensures Kind(Members(cs)) == Generic
  {
    hide Has;
    IsMember(cs, x);
    IsMember(cs, y);
    IsMember(cs, z);
    GenericIf(Members(cs), x, y, z);
  }

  lemma MixedEmpty(cs: Bitmap, i: nat, count: nat, candidate: int)
    requires i < CHARSETSIZE && Below(cs, i, count, candidate) && cs[i] == 0 && count > 1
    ensures Kind(Members(cs)) == Generic
  {
    hide Has, Bit, BitNumber, OneBit;
    CharBit(cs, i, 0);
    NoBits(cs[i], 0);
    Mixed(cs, Char(0, 0), Char(0, 1), Char(i, 0));
  }

  lemma MixedFull(cs: Bitmap, i: nat, count: nat, candidate: int)
    requires i < CHARSETSIZE && Below(cs, i, count, candidate) && cs[i] == 0xFF && count < 8 * i
    ensures Kind(Members(cs)) == Generic
  {
    hide Has, Bit, BitNumber, OneBit;
    CharBit(cs, i, 0);
    CharBit(cs, i, 1);
    NoBits(cs[i], 0);
    NoBits(cs[i], 1);
    var z := if count == 1 && Char(candidate, BitNumber(cs[candidate])) == Char(0, 0) then Char(0, 1) else Char(0, 0);
    Mixed(cs, Char(i, 0), Char(i, 1), z);
  }

  lemma MixedSingle(cs: Bitmap, i: nat, count: nat, candidate: int)
    requires i < CHARSETSIZE && Below(cs, i, count, candidate) && OneBit(cs[i]) && count > 0
    ensures Kind(Members(cs)) == Generic
  {
    hide Has, Bit, BitNumber;
    OneBitIs(cs[i]);
    hide OneBit;
    var k := SomeBit(cs[i]);
    var z := MissingBit(cs[i]);
    CharBit(cs, i, k);
    CharBit(cs, i, z);
    var x := if count == 1 then Char(candidate, BitNumber(cs[candidate])) else Char(0, 0);
    Mixed(cs, x, Char(i, k), Char(i, z));
  }

  lemma MixedByte(cs: Bitmap, i: nat)
    requires i < CHARSETSIZE && cs[i] != 0 && cs[i] != 0xFF && !OneBit(cs[i])
    ensures Kind(Members(cs)) == Generic
  {
    hide Has, Bit, BitNumber, OneBit;
    var k, l := TwoBits(cs[i]);
    var z := MissingBit(cs[i]);
    CharBit(cs, i, k);
    CharBit(cs, i, l);
    CharBit(cs, i, z);
    Mixed(cs, Char(i, k), Char(i, l), Char(i, z));
  }

  lemma AllSeen(cs: Bitmap, count: nat, candidate: int)
    requires Below(cs, CHARSETSIZE, count, candidate)
    ensures Kind(Members(cs)) ==
            if count == 0 then EmptySet
            else if count == 1 then Singleton(Char(candidate, BitNumber(cs[candidate])))
            else FullSet
  {
    hide Has, BitNumber, OneBit;
    forall c: Byte ensures c as nat < 8 * CHARSETSIZE && c in FULL && (c in Members(cs) <==> Has(cs, c)) {
      IsMember(cs, c);
    }
    var m := Members(cs);
    if count == 0 {
      assert m == {};
    } else if count == 1 {
      var x := Char(candidate, BitNumber(cs[candidate]));
      assert m == {x};
      assert Char(0, 0) in FULL && Char(0, 1) in FULL;
    } else {
      assert m == FULL;
      assert Char(0, 0) in FULL;
    }
  }

  /** charsettype: the kind of a set from its bit map. */
  method CharsetType(cs: Bitmap) returns (r: SetKind)
    ensures r == Kind(Members(cs))
  {
    hide Has, Bit, BitNumber, Below, Kind, Members;
    var count: nat, candidate: int, i := 0, -1, 0;
    NothingBelow(cs);
    while i < CHARSETSIZE
      invariant 0 <= i <= CHARSETSIZE && Below(cs, i, count, candidate)
    {
      var b := cs[i];
      if b == 0 {
        if count > 1 {
          MixedEmpty(cs, i, count, candidate);
          return Generic;
        }
        NextEmpty(cs, i, count, candidate);
      } else if b == 0xFF {
        if count < i * 8 {
          MixedFull(cs, i, count, candidate);
          return Generic;
        }
        NextFull(cs, i, count, candidate);
        count := count + 8;
      } else if b & (b - 1) == 0 {
        if count > 0 {
          MixedSingle(cs, i, count, candidate);
          return Generic;
        }
        NextSingle(cs, i, candidate);
        count := count + 1;
        candidate := i;
      } else {
        MixedByte(cs, i);
        return Generic;
      }
      i := i + 1;
    }
    AllSeen(cs, count, candidate);
    Counted(cs, count, candidate);
    match count
    case 0 => r := EmptySet;
    case 1 => r := Singleton(Char(candidate, BitNumber(cs[candidate])));
    case _ => r := FullSet;
  }

  lemma NothingBelow(cs: Bitmap)
    ensures Below(cs, 0, 0, -1)
  {
  }

  lemma Counted(cs: Bitmap, count: nat, candidate: int)
    requires Below(cs, CHARSETSIZE, count, candidate)
    ensures count == 1 ==> 0 <= candidate < CHARSETSIZE
    ensures count > 1 ==> count == 8 * CHARSETSIZE
  {
  }
}
