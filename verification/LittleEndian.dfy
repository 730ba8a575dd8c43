/** Bytes and numbers of several bytes, the low byte first, as the serialisers of this repository
    write them.
 */
module LittleEndian {
  import opened Basics

  type Byte = x: int | 0 <= x < 256

  const W16: nat := 0x1_0000
  const W32: nat := 0x1_0000_0000
  const W64: nat := 0x1_0000_0000_0000_0000
  const H31: int := 0x8000_0000
  const H63: int := 0x8000_0000_0000_0000

  /** `k` bytes, the low one first. */
  function LE(n: nat, k: nat): (s: seq<Byte>)
    ensures |s| == k
  {
    if k == 0 then [] else [n % 256] + LE(n / 256, k - 1)
  }

  function Val(s: seq<Byte>): nat { if s == [] then 0 else s[0] + 256 * Val(s[1..]) }

  function Pow256(k: nat): nat { if k == 0 then 1 else 256 * Pow256(k - 1) }

  lemma {:induction false} ValLE(n: nat, k: nat)
    requires n < Pow256(k)
    ensures Val(LE(n, k)) == n
  {
    if k > 0 { ValLE(n / 256, k - 1); }
  }

  lemma {:induction false} ValBound(s: seq<Byte>)
    ensures Val(s) < Pow256(|s|)
  {
    if s != [] { ValBound(s[1..]); }
  }

  /** Different byte strings of one length are different numbers. */
  lemma {:induction false} SameVal(s: seq<Byte>, t: seq<Byte>)
    requires |s| == |t| && Val(s) == Val(t)
    ensures s == t
  {
    if s != [] {
      assert Val(s) % 256 == s[0] && Val(t) % 256 == t[0];
      SameVal(s[1..], t[1..]);
      assert s == [s[0]] + s[1..] && t == [t[0]] + t[1..];
    }
  }

  lemma Powers()
    ensures Pow256(2) == W16 && Pow256(4) == W32 && Pow256(8) == W64
  {
    assert Pow256(1) == 256;
    assert Pow256(3) == 256 * Pow256(2) && Pow256(5) == 256 * Pow256(4);
    assert Pow256(6) == 256 * Pow256(5) && Pow256(7) == 256 * Pow256(6);
  }

  lemma Fits2(n: nat)
    requires n < W16
    ensures Val(LE(n, 2)) == n
  {
    Powers();
    ValLE(n, 2);
  }

  lemma Fits4(n: nat)
    requires n < W32
    ensures Val(LE(n, 4)) == n
  {
    Powers();
    ValLE(n, 4);
  }

  lemma Fits8(n: nat)
    requires n < W64
    ensures Val(LE(n, 8)) == n
  {
    Powers();
    ValLE(n, 8);
  }

  /** The low byte comes first. */
  lemma ValueOf(a: Byte, b: Byte, c: Byte, d: Byte)
    ensures Val([a]) == a as nat && Val([a, b]) == a as nat + 256 * b as nat
    ensures Val([a, b, c, d]) == a as nat + 0x100 * (b as nat) + 0x1_0000 * (c as nat) + 0x100_0000 * (d as nat)
  {
    assert [a][1..] == [] && [a, b][1..] == [b] && [b][1..] == [];
    assert [d][1..] == [] && [c, d][1..] == [d] && [b, c, d][1..] == [c, d] && [a, b, c, d][1..] == [b, c, d];
    assert Val([d]) == d as nat;
    assert Val([c, d]) == c as nat + 256 * Val([d]);
    assert Val([b, c, d]) == b as nat + 256 * Val([c, d]);
  }

  /** Four bytes more count for 2^32. */
  lemma ValueOfTwice(low: seq<Byte>, high: seq<Byte>)
    requires |low| == 4
    ensures Val(low + high) == Val(low) + 0x1_0000_0000 * Val(high)
  {
    var s := low + high;
    assert s[1..] == low[1..] + high && (low[1..] + high)[1..] == low[2..] + high;
    assert (low[2..] + high)[1..] == low[3..] + high && (low[3..] + high)[1..] == high;
    assert low[1..][1..] == low[2..] && low[2..][1..] == low[3..] && low[3..][1..] == [];
    assert Val(low[3..]) == low[3] && Val(low[3..] + high) == low[3] as nat + 256 * Val(high);
    assert Val(low[2..]) == low[2] as nat + 256 * Val(low[3..]);
    assert Val(low[2..] + high) == low[2] as nat + 256 * Val(low[3..] + high);
    assert Val(low[1..]) == low[1] as nat + 256 * Val(low[2..]);
    assert Val(low[1..] + high) == low[1] as nat + 256 * Val(low[2..] + high);
  }

  /** Two's complement. */
  function Signed32(u: nat): int { if u >= H31 then u - W32 else u }

  function Signed64(u: nat): int { if u >= H63 then u - W64 else u }

  lemma SignedBack(n: int)
    ensures (-H31 <= n < H31) ==> Signed32(n % W32) == n
    ensures (-H63 <= n < H63) ==> Signed64(n % W64) == n
  {
  }
}
