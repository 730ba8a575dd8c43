/** DES in the library of crypto functions (lualib/lcrypt.c): the permutations, sixteen rounds and
    the padding of whole texts. Decoding undoes encoding for every key schedule and whatever the
    S-boxes hold; those of the source are in DesKeys.
 */
module Des {
  import opened Basics

  type Bytes = seq<bv8>

  /** The eight S-boxes. */
  datatype Boxes = Boxes(sb1: bv6 -> bv32, sb2: bv6 -> bv32, sb3: bv6 -> bv32, sb4: bv6 -> bv32,
                         sb5: bv6 -> bv32, sb6: bv6 -> bv32, sb7: bv6 -> bv32, sb8: bv6 -> bv32)

  datatype Pair = Pair(x: bv32, y: bv32)

  // --------------------------------------------------------------- permutations

  /** T = ((X >> n) ^ Y) & mask; Y ^= T; X ^= (T << n); */
  function Swap4(p: Pair): Pair {
    var t := ((p.x >> 4) ^ p.y) & 0x0F0F0F0F;
    Pair(p.x ^ (t << 4), p.y ^ t)
  }

  function Swap16(p: Pair): Pair {
    var t := ((p.x >> 16) ^ p.y) & 0x0000FFFF;
    Pair(p.x ^ (t << 16), p.y ^ t)
  }

  /** The same with X and Y exchanged. */
  function Swap2(p: Pair): Pair {
    var t := ((p.y >> 2) ^ p.x) & 0x33333333;
    Pair(p.x ^ t, p.y ^ (t << 2))
  }

  function Swap8(p: Pair): Pair {
    var t := ((p.y >> 8) ^ p.x) & 0x00FF00FF;
    Pair(p.x ^ t, p.y ^ (t << 8))
  }

  function Swap1(p: Pair): Pair {
    var t := (p.x ^ p.y) & 0xAAAAAAAA;
    Pair(p.x ^ t, p.y ^ t)
  }

  function Left(x: bv32): bv32 { (x << 1) | (x >> 31) }

  function Right(x: bv32): bv32 { (x << 31) | (x >> 1) }

  /** DES_IP */
  function IP(p: Pair): Pair {
    var q := Swap8(Swap2(Swap16(Swap4(p))));
    var r := Swap1(Pair(q.x, Left(q.y)));
    Pair(Left(r.x), r.y)
  }

  /** DES_FP */
  function FP(p: Pair): Pair {
    var q := Swap1(Pair(Right(p.x), p.y));
    Swap4(Swap16(Swap2(Swap8(Pair(q.x, Right(q.y))))))
  }

  lemma Swap4Twice(p: Pair)
    ensures Swap4(Swap4(p)) == p
  {
  }

  lemma Swap16Twice(p: Pair)
    ensures Swap16(Swap16(p)) == p
  {
  }

  lemma Swap2Twice(p: Pair)
    ensures Swap2(Swap2(p)) == p
  {
  }

  lemma Swap8Twice(p: Pair)
    ensures Swap8(Swap8(p)) == p
  {
  }

  lemma Swap1Twice(p: Pair)
    ensures Swap1(Swap1(p)) == p
  {
  }

  lemma Rotations(x: bv32)
    ensures Left(Right(x)) == x && Right(Left(x)) == x
  {
  }

  /** The final permutation undoes the initial one and the other way round, on all blocks. */
  lemma PermutationsUndo(p: Pair)
    ensures FP(IP(p)) == p && IP(FP(p)) == p
  {
    hide Swap1, Swap2, Swap4, Swap8, Swap16, Left, Right;
    var a := Swap4(p);
    var b := Swap16(a);
    var c := Swap2(b);
    var d := Swap8(c);
    var e := Pair(d.x, Left(d.y));
    Swap4Twice(p);
    Swap16Twice(a);
    Swap2Twice(b);
    Swap8Twice(c);
    Swap1Twice(e);
    Rotations(d.y);
    Rotations(Swap1(e).x);
    var g := Pair(Right(p.x), p.y);
    var h := Swap1(g);
    var i := Pair(h.x, Right(h.y));
    var j := Swap8(i);
    var k := Swap2(j);
    var l := Swap16(k);
    Swap1Twice(g);
    Swap8Twice(i);
    Swap2Twice(j);
    Swap16Twice(k);
    Swap4Twice(l);
    Rotations(p.x);
    Rotations(h.y);
  }

  // -------------------------------------------------------------------- rounds

  function Six(t: bv32, n: nat): bv6
    requires n in {0, 8, 16, 24}
  {
    ((t >> n) & 0x3F) as bv6
  }

  /** The inputs of the S-boxes of even and of odd number. */
  function First(k: Pair, x: bv32): bv32 { k.x ^ x }

  function Second(k: Pair, x: bv32): bv32 { k.y ^ ((x << 28) | (x >> 4)) }

  /** What DES_ROUND exclusive-ors into the other half. */
  function Mix(sb: Boxes, k: Pair, x: bv32): bv32 {
    var t, u := First(k, x), Second(k, x);
    Joined(sb.sb8(Six(t, 0)), sb.sb6(Six(t, 8)), sb.sb4(Six(t, 16)), sb.sb2(Six(t, 24)),
           sb.sb7(Six(u, 0)), sb.sb5(Six(u, 8)), sb.sb3(Six(u, 16)), sb.sb1(Six(u, 24)))
  }

  function Joined(a: bv32, b: bv32, c: bv32, d: bv32, e: bv32, f: bv32, g: bv32, h: bv32): bv32 {
    a ^ b ^ c ^ d ^ e ^ f ^ g ^ h
  }

  /** One round; the halves exchange their roles, and `x` is the one that is read. */
  function Round(sb: Boxes, k: Pair, p: Pair): Pair { Pair(p.y ^ Mix(sb, k, p.x), p.x) }

  function Feistel(sb: Boxes, keys: seq<Pair>, p: Pair): Pair {
    if keys == [] then p else Feistel(sb, keys[1..], Round(sb, keys[0], p))
  }

  /** The round keys from the last to the first. */
  function LastFirst(keys: seq<Pair>): seq<Pair> {
    seq(|keys|, i requires 0 <= i < |keys| => keys[|keys| - 1 - i])
  }

  function Exchanged(p: Pair): Pair { Pair(p.y, p.x) }

  lemma {:induction false} FeistelAppend(sb: Boxes, a: seq<Pair>, b: seq<Pair>, p: Pair)
    ensures Feistel(sb, a + b, p) == Feistel(sb, b, Feistel(sb, a, p))
  {
    hide Round;
    if a == [] {
      assert a + b == b;
    } else {
      assert (a + b)[0] == a[0] && (a + b)[1..] == a[1..] + b;
      FeistelAppend(sb, a[1..], b, Round(sb, a[0], p));
    }
  }

  lemma XorTwice(a: bv32, b: bv32)
    ensures (a ^ b) ^ b == a
  {
  }

  /** A round undoes itself when the halves are exchanged before and after. */
  lemma RoundUndoes(sb: Boxes, k: Pair, p: Pair)
    ensures Round(sb, k, Exchanged(Round(sb, k, p))) == Exchanged(p)
  {
    hide Mix;
    XorTwice(p.y, Mix(sb, k, p.x));
  }

  /** Any number of rounds undo themselves with the round keys in reverse order, for any
      S-boxes. */
  lemma {:induction false} FeistelUndoes(sb: Boxes, keys: seq<Pair>, p: Pair)
    ensures Feistel(sb, LastFirst(keys), Exchanged(Feistel(sb, keys, p))) == Exchanged(p)
    decreases |keys|
  {
    hide Round, Exchanged;
    if keys != [] {
      var k, rest := keys[0], keys[1..];
      FeistelUndoes(sb, rest, Round(sb, k, p));
      assert LastFirst(keys) == LastFirst(rest) + [k];
      FeistelAppend(sb, LastFirst(rest), [k], Exchanged(Feistel(sb, keys, p)));
      OneRound(sb, k, Exchanged(Round(sb, k, p)));
      RoundUndoes(sb, k, p);
    }
  }

  lemma OneRound(sb: Boxes, k: Pair, p: Pair)
    ensures Feistel(sb, [k], p) == Round(sb, k, p)
  {
    hide Round;
    assert [k][1..] == [];
  }

  // -------------------------------------------------------------------- blocks

  /** GET_UINT32 */
  function Get32(b: Bytes): bv32
    requires |b| == 4
  {
    ((b[0] as bv32) << 24) | ((b[1] as bv32) << 16) | ((b[2] as bv32) << 8) | (b[3] as bv32)
  }

  /** PUT_UINT32 */
  function Put32(n: bv32): (b: Bytes)
    ensures |b| == 4
  {
    [((n >> 24) & 0xFF) as bv8, ((n >> 16) & 0xFF) as bv8, ((n >> 8) & 0xFF) as bv8, (n & 0xFF) as bv8]
  }

  lemma PutGet(n: bv32)
    ensures Get32(Put32(n)) == n
  {
  }

  lemma GetPut(b: Bytes)
    requires |b| == 4
    ensures Put32(Get32(b)) == b
  {
    BytesOfWord(b[0], b[1], b[2], b[3]);
    assert b == [b[0], b[1], b[2], b[3]];
  }

  lemma BytesOfWord(a: bv8, b: bv8, c: bv8, d: bv8)
    ensures var n := ((a as bv32) << 24) | ((b as bv32) << 16) | ((c as bv32) << 8) | (d as bv32);
            ((n >> 24) & 0xFF) as bv8 == a && ((n >> 16) & 0xFF) as bv8 == b && ((n >> 8) & 0xFF) as bv8 == c && (n & 0xFF) as bv8 == d
  {
  }

  type Subkeys = s: seq<bv32> | |s| == 32 witness seq(32, _ => 0)

  function RoundKeys(sk: Subkeys): (r: seq<Pair>)
    ensures |r| == 16
  {
    seq(16, i requires 0 <= i < 16 => Pair(sk[2 * i], sk[2 * i + 1]))
  }

  /** des_crypt */
  function Crypt(sb: Boxes, sk: Subkeys, b: Bytes): (r: Bytes)
    requires |b| == 8
    ensures |r| == 8
  {
    var p := IP(Pair(Get32(b[..4]), Get32(b[4..])));
    var q := FP(Feistel(sb, RoundKeys(sk), Exchanged(p)));
    Put32(q.x) + Put32(q.y)
  }

  /** The subkeys in the order in which decoding uses them. */
  function Backwards(sk: Subkeys): Subkeys {
    seq(32, i requires 0 <= i < 32 => if i % 2 == 0 then sk[30 - i] else sk[32 - i])
  }

  lemma BackwardsIsLastFirst(sk: Subkeys)
    ensures RoundKeys(Backwards(sk)) == LastFirst(RoundKeys(sk))
  {
    forall i | 0 <= i < 16 ensures RoundKeys(Backwards(sk))[i] == LastFirst(RoundKeys(sk))[i] {
      assert Backwards(sk)[2 * i] == sk[30 - 2 * i] && Backwards(sk)[2 * i + 1] == sk[31 - 2 * i];
    }
  }

  /** Decrypting a block undoes encrypting it, for all subkeys. */
  lemma CryptUndoes(sb: Boxes, sk: Subkeys, b: Bytes)
    requires |b| == 8
    ensures Crypt(sb, Backwards(sk), Crypt(sb, sk, b)) == b
  {
    hide Mix, Feistel, IP, FP, Get32, Put32, RoundKeys, Backwards, LastFirst;
    var w := Pair(Get32(b[..4]), Get32(b[4..]));
    var p := IP(w);
    var f := Feistel(sb, RoundKeys(sk), Exchanged(p));
    var q := FP(f);
    var c := Crypt(sb, sk, b);
    assert c[..4] == Put32(q.x) && c[4..] == Put32(q.y);
    PutGet(q.x);
    PutGet(q.y);
    PermutationsUndo(f);
    PermutationsUndo(w);
    BackwardsIsLastFirst(sk);
    FeistelUndoes(sb, RoundKeys(sk), Exchanged(p));
    GetPut(b[..4]);
    GetPut(b[4..]);
    assert b == b[..4] + b[4..];
  }

  // ---------------------------------------------------------------- whole texts

  function Zeros(n: nat): (b: Bytes)
    ensures |b| == n
  {
    seq(n, _ => 0)
  }

  /** A text with 0x80 and zeros up to whole blocks. */
  function Padded(text: Bytes): (r: Bytes)
    ensures |r| % 8 == 0 && |text| < |r| <= |text| + 8
  {
    text + ([0x80] + Zeros(7 - |text| % 8))
  }

  /** As many bytes as fill up the last block, and at least one; the first of them is 0x80. */
  lemma PaddedBytes(text: Bytes)
    ensures var r := Padded(text);
            && |r| == (|text| + 8) / 8 * 8 && r[..|text|] == text && r[|text|] == 0x80
            && forall k :: |text| < k < |r| ==> r[k] == 0
  {
  }

  function CryptAll(sb: Boxes, sk: Subkeys, s: Bytes): (r: Bytes)
    requires |s| % 8 == 0
    ensures |r| == |s|
  {
    if s == [] then [] else Crypt(sb, sk, s[..8]) + CryptAll(sb, sk, s[8..])
  }

  /** The zeros at the end. */
  function Trailing(s: Bytes): (n: nat)
    ensures n <= |s| && (n < |s| ==> s[|s| - 1 - n] != 0) && forall i :: |s| - n <= i < |s| ==> s[i] == 0
  {
    if s == [] || s[|s| - 1] != 0 then 0 else 1 + Trailing(s[..|s| - 1])
  }

  /** The text without its padding; None for an error. */
  function Unpadded(s: Bytes): Option<Bytes> {
    var n := Trailing(s);
    if n < 8 && n < |s| && s[|s| - 1 - n] == 0x80 then Some(s[..|s| - 1 - n]) else None
  }

  function Encode(sb: Boxes, sk: Subkeys, text: Bytes): Bytes { CryptAll(sb, sk, Padded(text)) }

  function Decode(sb: Boxes, sk: Subkeys, s: Bytes): Option<Bytes> {
    if |s| % 8 != 0 || |s| == 0 then None else Unpadded(CryptAll(sb, Backwards(sk), s))
  }

  lemma {:induction false} TrailingIs(s: Bytes, n: nat)
    requires n < |s| && s[|s| - 1 - n] != 0 && forall i :: |s| - n <= i < |s| ==> s[i] == 0
    ensures Trailing(s) == n
    decreases n
  {
    if n > 0 { TrailingIs(s[..|s| - 1], n - 1); }
  }

  lemma PaddingUndoes(text: Bytes)
    ensures Unpadded(Padded(text)) == Some(text)
  {
    var n := 7 - |text| % 8;
    var s := Padded(text);
    assert s[|text|] == 0x80 && forall i :: |text| < i < |s| ==> s[i] == 0;
    TrailingIs(s, n);
    assert s[..|text|] == text;
  }

  lemma {:induction false} CryptAllUndoes(sb: Boxes, sk: Subkeys, s: Bytes)
    requires |s| % 8 == 0
    ensures CryptAll(sb, Backwards(sk), CryptAll(sb, sk, s)) == s
    decreases |s|
  {
    hide Crypt, Backwards;
    if s != [] {
      var a, b := Crypt(sb, sk, s[..8]), CryptAll(sb, sk, s[8..]);
      CryptUndoes(sb, sk, s[..8]);
      CryptAllUndoes(sb, sk, s[8..]);
      assert (a + b)[..8] == a && (a + b)[8..] == b;
      assert s == s[..8] + s[8..];
    }
  }

  /** Decoding gives back the text: for texts of every length, all subkeys and all S-boxes. */
  lemma RoundTrip(sb: Boxes, sk: Subkeys, text: Bytes)
    ensures Decode(sb, sk, Encode(sb, sk, text)) == Some(text)
  {
    hide CryptAll, Padded, Unpadded, Backwards;
    CryptAllUndoes(sb, sk, Padded(text));
    PaddingUndoes(text);
  }

  // -------------------------------------------------------------------- the loops

  /** des_crypt, writing to `buffer` from `at` on. */
  method DesCrypt(sb: Boxes, sk: Subkeys, input: Bytes, buffer: array<bv8>, at: nat)
    requires |input| == 8 && at + 8 <= buffer.Length
    modifies buffer
    ensures buffer[at..at + 8] == Crypt(sb, sk, input)
    ensures forall k :: 0 <= k < at || at + 8 <= k < buffer.Length ==> buffer[k] == old(buffer[k])
  {
    hide Mix, IP, FP, Get32, Put32, RoundKeys, Round, Feistel, Crypt;
    var p := IP(Pair(Get32(input[..4]), Get32(input[4..])));
    var x, y := p.x, p.y;
    var i := 0;
    ghost var keys := RoundKeys(sk);
    assert keys[0..] == keys;
    while i < 16
      invariant 0 <= i <= 16 && i % 2 == 0
      invariant Feistel(sb, keys, Exchanged(p)) == Feistel(sb, keys[i..], Pair(y, x))
      modifies {}
    {
      var k0, k1 := Pair(sk[2 * i], sk[2 * i + 1]), Pair(sk[2 * i + 2], sk[2 * i + 3]);
      KeysAt(sk, i);
      TwoRounds(sb, keys, i, Pair(y, x));
      RoundIs(sb, k0, y, x);
      x := x ^ Mix(sb, k0, y);
      RoundIs(sb, k1, x, y);
      y := y ^ Mix(sb, k1, x);
      i := i + 2;
    }
    assert keys[i..] == [];
    NoRounds(sb, Pair(y, x));
    CryptIs(sb, sk, input);
    var q := FP(Pair(y, x));
    PutEight(Put32(q.x) + Put32(q.y), buffer, at);
  }

  method PutEight(out: Bytes, buffer: array<bv8>, at: nat)
    requires |out| == 8 && at + 8 <= buffer.Length
    modifies buffer
    ensures buffer[at..at + 8] == out
    ensures forall k :: 0 <= k < at || at + 8 <= k < buffer.Length ==> buffer[k] == old(buffer[k])
  {
    forall k | at <= k < at + 8 {
      buffer[k] := out[k - at];
    }
  }

  lemma CryptIs(sb: Boxes, sk: Subkeys, b: Bytes)
    requires |b| == 8
    ensures var q := FP(Feistel(sb, RoundKeys(sk), Exchanged(IP(Pair(Get32(b[..4]), Get32(b[4..]))))));
            Crypt(sb, sk, b) == Put32(q.x) + Put32(q.y)
  {
    hide Mix, IP, FP, Get32, Put32, RoundKeys, Round, Feistel;
  }

  /** DES_ROUND(X, Y) */
  lemma RoundIs(sb: Boxes, k: Pair, x: bv32, y: bv32)
    ensures Round(sb, k, Pair(x, y)) == Pair(y ^ Mix(sb, k, x), x)
  {
    hide Mix;
  }

  lemma NoRounds(sb: Boxes, p: Pair)
    ensures Feistel(sb, [], p) == p
  {
  }

  lemma KeysAt(sk: Subkeys, i: nat)
    requires i + 1 < 16
    ensures RoundKeys(sk)[i] == Pair(sk[2 * i], sk[2 * i + 1]) && RoundKeys(sk)[i + 1] == Pair(sk[2 * i + 2], sk[2 * i + 3])
  {
  }

  lemma TwoRounds(sb: Boxes, keys: seq<Pair>, i: nat, p: Pair)
    requires i + 1 < |keys|
    ensures Feistel(sb, keys[i..], p) == Feistel(sb, keys[i + 2..], Round(sb, keys[i + 1], Round(sb, keys[i], p)))
  {
    hide Round;
    assert keys[i..][0] == keys[i] && keys[i..][1..] == keys[i + 1..];
    assert keys[i + 1..][0] == keys[i + 1] && keys[i + 1..][1..] == keys[i + 2..];
  }

  lemma {:induction false} CryptAllAppend(sb: Boxes, sk: Subkeys, s: Bytes, b: Bytes)
    requires |s| % 8 == 0 && |b| == 8
    ensures CryptAll(sb, sk, s + b) == CryptAll(sb, sk, s) + Crypt(sb, sk, b)
    decreases |s|
  {
    hide Crypt;
    if s == [] {
      assert s + b == b && b[..8] == b && b[8..] == [];
      assert Crypt(sb, sk, b) + [] == Crypt(sb, sk, b) == [] + Crypt(sb, sk, b);
    } else {
      CryptAllAppend(sb, sk, s[8..], b);
      assert (s + b)[..8] == s[..8] && (s + b)[8..] == s[8..] + b;
      var c, d, e := Crypt(sb, sk, s[..8]), CryptAll(sb, sk, s[8..]), Crypt(sb, sk, b);
      assert c + (d + e) == (c + d) + e;
    }
  }

  /** The next block of a text. */
  method CryptNext(sb: Boxes, sk: Subkeys, block: Bytes, buffer: array<bv8>, i: nat, ghost done: Bytes)
    requires |block| == 8 && |done| == i && i % 8 == 0 && i + 8 <= buffer.Length && buffer[..i] == CryptAll(sb, sk, done)
    modifies buffer
    ensures buffer[..i + 8] == CryptAll(sb, sk, done + block)
  {
    hide Crypt, CryptAll;
    ghost var before := buffer[..i];
    DesCrypt(sb, sk, block, buffer, i);
    assert buffer[..i] == before;
    assert buffer[..i + 8] == buffer[..i] + buffer[i..i + 8];
    CryptAllAppend(sb, sk, done, block);
  }

  /** ldesencode, after the key schedule. */
  method DesEncode(sb: Boxes, sk: Subkeys, text: Bytes) returns (r: Bytes)
    ensures r == Encode(sb, sk, text)
  {
    hide Crypt, CryptAll;
    var textsz := |text|;
    var chunksz := (textsz + 8) / 8 * 8;
    var buffer := new bv8[chunksz](_ => 0);
    var i := 0;
    Nothing(sb, sk);
    assert buffer[..0] == [] && text[..0] == [];
    while i < textsz - 7
      invariant 0 <= i && i % 8 == 0 && i <= textsz && chunksz == (textsz + 8) / 8 * 8 == buffer.Length
      invariant buffer[..i] == CryptAll(sb, sk, text[..i])
    {
      CryptNext(sb, sk, text[i..i + 8], buffer, i, text[..i]);
      assert text[..i + 8] == text[..i] + text[i..i + 8];
      i := i + 8;
    }
    var bytes := textsz - i;
    LastBlock(textsz, i);
    var tail := new bv8[8](_ => 0);
    var j := 0;
    while j < 8
      invariant 0 <= j <= 8
      invariant forall k :: 0 <= k < j ==> tail[k] == Padded(text)[i + k]
      modifies tail
    {
      if j < bytes {
        tail[j] := text[i + j];
      } else if j == bytes {
        tail[j] := 0x80;
      } else {
        tail[j] := 0;
      }
      j := j + 1;
    }
    assert tail[..] == Padded(text)[i..];
    assert Padded(text) == text[..i] + Padded(text)[i..];
    CryptNext(sb, sk, tail[..], buffer, i, text[..i]);
    r := buffer[..i + 8];
  }

  lemma Nothing(sb: Boxes, sk: Subkeys)
    ensures CryptAll(sb, sk, []) == []
  {
  }

  lemma LastBlock(n: nat, i: nat)
    requires i % 8 == 0 && n - 7 <= i <= n
    ensures n - i == n % 8 && i + 8 == (n + 8) / 8 * 8
    ensures forall text: Bytes :: |text| == n ==> |Padded(text)| == i + 8
  {
  }

  /** The subkeys for decoding, filled in pairs. */
  method BackwardKeys(esk: Subkeys) returns (sk: Subkeys)
    ensures sk == Backwards(esk)
  {
    var a := new bv32[32](_ => 0);
    var i := 0;
    while i < 32
      invariant 0 <= i <= 32 && i % 2 == 0
      invariant forall k :: 0 <= k < i ==> a[k] == Backwards(esk)[k]
    {
      a[i] := esk[30 - i];
      a[i + 1] := esk[31 - i];
      i := i + 2;
    }
    sk := a[..];
  }

  /** ldesdecode, after the key schedule; None where it raises an error. */
  method DesDecode(sb: Boxes, esk: Subkeys, text: Bytes) returns (r: Option<Bytes>)
    ensures r == Decode(sb, esk, text)
  {
    hide Crypt, CryptAll, Backwards;
    var sk := BackwardKeys(esk);
    var textsz := |text|;
    if textsz % 8 != 0 || textsz == 0 {
      return None;
    }
    var buffer := new bv8[textsz](_ => 0);
    var i := 0;
    Nothing(sb, sk);
    assert buffer[..0] == [] && text[..0] == [];
    while i < textsz
      invariant 0 <= i <= textsz && i % 8 == 0 && buffer[..i] == CryptAll(sb, sk, text[..i])
    {
      CryptNext(sb, sk, text[i..i + 8], buffer, i, text[..i]);
      assert text[..i + 8] == text[..i] + text[i..i + 8];
      i := i + 8;
    }
    assert text[..textsz] == text && buffer[..textsz] == buffer[..];
    r := RemovePadding(buffer);
  }

  /** The end of ldesdecode. The source compares the index without a sign, so that for a single
      block of zeros it looks at bytes in front of the buffer; it reports the error all the same. */
  method RemovePadding(buffer: array<bv8>) returns (r: Option<Bytes>)
    requires buffer.Length >= 8
    ensures r == Unpadded(buffer[..])
  {
    ghost var s := buffer[..];
    var padding, i := 1, buffer.Length - 1;
    while i >= buffer.Length - 8
      invariant buffer.Length - 9 <= i < buffer.Length && padding == buffer.Length - i
      invariant forall k :: i < k < buffer.Length ==> buffer[k] == 0
    {
      if buffer[i] == 0 {
        padding := padding + 1;
      } else if buffer[i] == 0x80 {
        TrailingIs(s, padding - 1);
        return Some(buffer[..buffer.Length - padding]);
      } else {
        TrailingIs(s, padding - 1);
        return None;
      }
      i := i - 1;
    }
    ManyZeros(s, 8);
    return None;
  }

  lemma {:induction false} ManyZeros(s: Bytes, n: nat)
    requires n <= |s| && forall i :: |s| - n <= i < |s| ==> s[i] == 0
    ensures Trailing(s) >= n
    decreases n
  {
    if n > 0 { ManyZeros(s[..|s| - 1], n - 1); }
  }
}
