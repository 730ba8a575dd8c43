/** Diffie-Hellman key exchange over 64-bit words (lualib/lcrypt.c): multiplication and
    exponentiation modulo the largest 64-bit prime with no wider word, and the two Lua entry
    points over strings of eight bytes.
 */
module DhExchange {
  import opened Basics
  import opened LittleEndian

  const P: nat := 0xffff_ffff_ffff_ffc5
  const G: nat := 5

  function Pow(a: nat, n: nat): nat { if n == 0 then 1 else a * Pow(a, n - 1) }

  // --------------------------------------------------------------- arithmetic

  /** Numbers that differ by a multiple of `m` have the same remainder. */
  lemma SameRemainder(x: int, y: int, k: int, m: nat)
    requires m > 0 && x == y + k * m
    ensures x % m == y % m
  {
    var j := x / m - y / m - k;
    assert j * m == (x / m) * m - (y / m) * m - k * m;
    assert j * m == y % m - x % m;
    MultipleIsLarge(j, m);
  }

  lemma ModMul(x: nat, y: nat, m: nat)
    requires m > 0
    ensures ((x % m) * y) % m == (x * y) % m && (x * (y % m)) % m == (x * y) % m
  {
    var q, r := x / m, y / m;
    assert x * y == (x % m) * y + (q * y) * m by { Scaled(x, q, m, x % m, y); }
    SameRemainder(x * y, (x % m) * y, q * y, m);
    assert x * y == x * (y % m) + (r * x) * m by { Scaled(y, r, m, y % m, x); }
    SameRemainder(x * y, x * (y % m), r * x, m);
  }

  lemma Scaled(x: nat, q: nat, m: nat, r: nat, y: nat)
    requires x == q * m + r
    ensures x * y == r * y + (q * y) * m
  {
    assert (q * m) * y == (q * y) * m;
  }

  lemma {:induction false} PowAdd(a: nat, m: nat, n: nat)
    ensures Pow(a, m + n) == Pow(a, m) * Pow(a, n)
    decreases m
  {
    if m > 0 {
      PowAdd(a, m - 1, n);
      assert a * (Pow(a, m - 1) * Pow(a, n)) == (a * Pow(a, m - 1)) * Pow(a, n);
    }
  }

  lemma {:induction false} PowMul(a: nat, m: nat, n: nat)
    ensures Pow(Pow(a, m), n) == Pow(a, m * n)
    decreases n
  {
    if n > 0 {
      PowMul(a, m, n - 1);
      PowAdd(a, m, m * (n - 1));
      assert m + m * (n - 1) == m * n;
    } else {
      assert m * n == 0;
    }
  }

  /** Reducing the base first changes nothing. */
  lemma {:induction false} PowReduced(a: nat, n: nat, m: nat)
    requires m > 0
    ensures Pow(a % m, n) % m == Pow(a, n) % m
    decreases n
  {
    if n > 0 {
      PowReduced(a, n - 1, m);
      ModMul(a, Pow(a % m, n - 1), m);
      ModMul(a, Pow(a % m, n - 1), m);
      ModMul(a, Pow(a, n - 1), m);
      calc {
        Pow(a % m, n) % m;
        ((a % m) * Pow(a % m, n - 1)) % m;
        (a * Pow(a % m, n - 1)) % m;
        (a * (Pow(a % m, n - 1) % m)) % m;
        (a * (Pow(a, n - 1) % m)) % m;
        (a * Pow(a, n - 1)) % m;
      }
    }
  }

  lemma PowFirst(a: nat)
    ensures Pow(a, 1) == a
  {
    assert Pow(a, 1) == a * Pow(a, 0);
  }

  // ------------------------------------------------------------ multiplication

  function Product(x: nat, y: nat): nat { (x * y) % P }

  ghost function Residue(x: nat): nat { x % P }

  lemma Residues(x: nat)
    ensures x < P ==> Residue(x) == x
  {
  }

  ghost function Coming(m: nat, a: nat, b: nat): nat { (m + a * b) % P }

  lemma Halve(a: nat, b: nat)
    ensures a * b == (2 * a) * (b / 2) + (if b % 2 == 1 then a else 0)
  {
    assert b == 2 * (b / 2) + b % 2;
  }

  lemma MulEnds(m: nat, a: nat, b: nat)
    ensures Coming(0, a, b) == Product(a, b)
    ensures m < P ==> Coming(m, a, 0) == m
  {
  }

  /** mul_mod_p: doubling and adding. `a * 2` may not fit a word; the wrapped difference is
      right all the same. */
  method MulModP(a0: nat, b0: nat) returns (m: nat)
    requires a0 <= P && b0 < W64
    ensures m < P && m == Product(a0, b0)
  {
    hide Coming, Product;
    m := 0;
    var a: nat, b: nat := a0, b0;
    MulEnds(0, a0, b0);
    while b != 0
      invariant a <= P && m < P && b < W64
      invariant Coming(m, a, b) == Product(a0, b0)
    {
      ghost var m1, a1 := m, a;
      if b % 2 == 1 {
        var t := P - a;
        if m >= t {
          m := m - t;
        } else {
          m := m + a;
        }
      }
      if a >= P - a {
        a := (a * 2 % W64 - P) % W64;
      } else {
        a := a * 2;
      }
      MulStep(m1, a1, b, m, a);
      b := b / 2;
    }
    MulEnds(m, a, 0);
  }

  lemma MulStep(m1: nat, a1: nat, b: nat, m: nat, a: nat)
    requires m == m1 + (if b % 2 == 1 then a1 else 0) || m == m1 + (if b % 2 == 1 then a1 else 0) - P
    requires a == 2 * a1 || a == 2 * a1 - P
    ensures Coming(m, a, b / 2) == Coming(m1, a1, b)
  {
    Halve(a1, b);
    var bit, h := if b % 2 == 1 then a1 else 0, b / 2;
    var k, j := if m == m1 + bit then 0 else 1, if a == 2 * a1 then 0 else 1;
    Reduced(m1, bit, a1, h, k, j, P);
    assert m == m1 + bit - k * P && a == 2 * a1 - j * P;
    SameRemainder(m1 + a1 * b, m + a * h, k + j * h, P);
  }

  lemma Reduced(m1: nat, bit: nat, a1: nat, h: nat, k: nat, j: nat, p: nat)
    ensures (m1 + bit - k * p) + (2 * a1 - j * p) * h == m1 + ((2 * a1) * h + bit) - (k + j * h) * p
  {
    assert (2 * a1 - j * p) * h == (2 * a1) * h - (j * p) * h;
    assert (j * p) * h == (j * h) * p;
  }

  /** pow_mod_p: never called with 0, for which it would not return. A base equal to P is only
      reduced when there is a multiplication. */
  method PowModP(a: nat, b: nat) returns (t: nat)
    requires a <= P && 1 <= b < W64
    ensures Residue(t) == Residue(Pow(a, b)) && t <= P
    ensures a < P || b > 1 ==> t == Residue(Pow(a, b))
    decreases b
  {
    if b == 1 {
      PowFirst(a);
      Residues(a);
      return a;
    }
    hide Pow, Product, Residue;
    t := PowModP(a, b / 2);
    PowHalves(a, b, t);
    t := MulModP(t, t);
    if b % 2 != 0 {
      t := MulModP(t, a);
    }
    Residues(t);
  }

  lemma SquareMod(t: nat, x: nat)
    requires t % P == x % P
    ensures (t * t) % P == (x * x) % P
  {
    ModMul(t, t, P);
    ModMul(x, t, P);
    ModMul(x, x, P);
    assert ((t % P) * t) % P == ((x % P) * t) % P;
    assert (x * (t % P)) % P == (x * (x % P)) % P;
  }

  lemma TimesMod(t: nat, x: nat, a: nat)
    requires t % P == x % P
    ensures (t * a) % P == (x * a) % P
  {
    ModMul(t, a, P);
    ModMul(x, a, P);
  }

  lemma PowHalves(a: nat, b: nat, t: nat)
    requires b > 1 && Residue(t) == Residue(Pow(a, b / 2))
    ensures b % 2 == 0 ==> Product(t, t) == Residue(Pow(a, b))
    ensures b % 2 == 1 ==> Product(Product(t, t), a) == Residue(Pow(a, b))
  {
    var h, x := b / 2, Pow(a, b / 2);
    SquareMod(t, x);
    PowAdd(a, h, h);
    if b % 2 == 1 {
      assert b == h + h + 1;
      assert Pow(a, b) == a * Pow(a, h + h) == (x * x) * a;
      TimesMod((t * t) % P, x * x, a);
    }
  }

  /** powmodp */
  method PowMod(a: nat, b: nat) returns (r: nat)
    requires a < W64 && 1 <= b < W64
    ensures r % P == Pow(a, b) % P && r <= P
    ensures a != P || b > 1 ==> r == Pow(a, b) % P
  {
    PowReduced(a, b, P);
    var base := a;
    if a > P {
      base := a % P;
    }
    r := PowModP(base, b);
  }

  // -------------------------------------------------------------- entry points

  function Word(s: seq<Byte>): (w: nat)
    ensures |s| == 8 ==> w < W64
  {
    ValBound(s);
    Powers();
    Val(s)
  }

  /** The public value of a private key (0 counts as 1). */
  function Public(x: nat): nat { Pow(G, if x == 0 then 1 else x) % P }

  /** ldhexchange */
  method DhExchange(x: seq<Byte>) returns (r: Option<seq<Byte>>)
    ensures if |x| != 8 then r == None
            else r.Some? && |r.value| == 8 && Word(r.value) == Public(Word(x)) && 0 < Word(r.value) < P
  {
    if |x| != 8 {
      return None;
    }
    var x64 := Word(x);
    PublicIsNotZero(if x64 == 0 then 1 else x64);
    if x64 == 0 {
      x64 := 1;
    }
    var w := PowMod(5, x64);
    Fits8(w);
    r := Some(LE(w, 8));
  }

  /** ldhsecret */
  method DhSecret(x: seq<Byte>, y: seq<Byte>) returns (r: Option<seq<Byte>>)
    ensures r == None <==> |x| != 8 || |y| != 8 || Word(x) == 0 || Word(y) == 0
    ensures r.Some? ==> |r.value| == 8 && Word(r.value) % P == Pow(Word(x), Word(y)) % P
    ensures r.Some? && Word(x) < P ==> Word(r.value) == Pow(Word(x), Word(y)) % P
  {
    if |x| != 8 || |y| != 8 {
      return None;
    }
    var xx, yy := Word(x), Word(y);
    if xx == 0 || yy == 0 {
      return None;
    }
    var w := PowMod(xx, yy);
    Fits8(w);
    r := Some(LE(w, 8));
  }

  const INVERSE: nat := 0x6666_6666_6666_664f

  /** No power of 5 is a multiple of P: 5 has an inverse. */
  lemma PublicIsNotZero(n: nat)
    ensures Pow(G, n) % P != 0
  {
    PowProduct(G, INVERSE, n);
    assert G * INVERSE == 2 * P + 1;
    PowReduced(G * INVERSE, n, P);
    PowOne(n);
    var a, b := Pow(G, n), Pow(INVERSE, n);
    ModMul(a, b, P);
    assert (a * b) % P == 1;
    NonZeroFactor(a % P, b);
  }

  lemma NonZeroFactor(r: nat, b: nat)
    ensures r == 0 ==> (r * b) % P == 0
  {
  }

  lemma {:induction false} PowProduct(a: nat, b: nat, n: nat)
    ensures Pow(a * b, n) == Pow(a, n) * Pow(b, n)
  {
    if n > 0 {
      PowProduct(a, b, n - 1);
      Shuffle(a, b, Pow(a, n - 1), Pow(b, n - 1));
    }
  }

  lemma Shuffle(a: nat, b: nat, x: nat, y: nat)
    ensures (a * b) * (x * y) == (a * x) * (b * y)
  {
    assert (a * b) * (x * y) == a * (b * (x * y));
    assert b * (x * y) == x * (b * y);
    assert a * (x * (b * y)) == (a * x) * (b * y);
  }

  lemma {:induction false} PowOne(n: nat)
    ensures Pow(1, n) == 1
  {
    if n > 0 { PowOne(n - 1); }
  }

  /** The shared secret does not depend on who computes it. */
  lemma SecretsAgree(x: nat, y: nat)
    requires x > 0 && y > 0
    ensures Pow(Public(x), y) % P == Pow(G, x * y) % P == Pow(Public(y), x) % P
    ensures Pow(Public(x), y) % P != 0
  {
    PowReduced(Pow(G, x), y, P);
    PowReduced(Pow(G, y), x, P);
    PowMul(G, x, y);
    PowMul(G, y, x);
    assert x * y == y * x;
    PublicIsNotZero(x * y);
  }

  /** The exchange as a whole: for all keys that are not zero both sides end with the same eight
      bytes. */
  method Agree(x: seq<Byte>, y: seq<Byte>) returns (sx: seq<Byte>, sy: seq<Byte>)
    requires |x| == 8 && |y| == 8 && Word(x) != 0 && Word(y) != 0
    ensures sx == sy && |sx| == 8 && Word(sx) == Pow(G, Word(x) * Word(y)) % P && Word(sx) != 0
  {
    var px := DhExchange(x);
    var py := DhExchange(y);
    SecretsAgree(Word(x), Word(y));
    var a := DhSecret(py.value, x);
    var b := DhSecret(px.value, y);
    sx, sy := a.value, b.value;
    SameVal(sx, sy);
  }

  // -------------------------------------------------------------------- bytes

  /** A key is a number with its low byte first. */
  lemma WordIs(a: Byte, b: Byte, c: Byte, d: Byte, e: Byte, f: Byte, g: Byte, h: Byte)
    ensures Word([a, b, c, d, e, f, g, h]) ==
            a as nat + 0x100 * (b as nat) + 0x1_0000 * (c as nat) + 0x100_0000 * (d as nat)
            + 0x1_0000_0000 * (e as nat + 0x100 * (f as nat) + 0x1_0000 * (g as nat) + 0x100_0000 * (h as nat))
  {
    hide Val;
    ValueOf(a, b, c, d);
    ValueOf(e, f, g, h);
    ValueOfTwice([a, b, c, d], [e, f, g, h]);
    assert [a, b, c, d] + [e, f, g, h] == [a, b, c, d, e, f, g, h];
  }

  /** The first power of 5 that does not fit 64 bits is the 28th; P is 2^64 - 59. */
  lemma FirstReduced()
    ensures P == 0x1_0000_0000_0000_0000 - 59
    ensures Pow(5, 27) == 7450580596923828125 < P && Pow(5, 28) == 37252902984619140625 == 2 * P + 359414837200037511
  {
    Fives();
    PowAdd(5, 9, 9);
    PowAdd(5, 18, 9);
    PowAdd(5, 1, 27);
  }

  lemma Fives()
    ensures Pow(5, 1) == 5 && Pow(5, 9) == 1953125
  {
    PowFirst(5);
    assert Pow(5, 2) == 25 && Pow(5, 3) == 125 && Pow(5, 4) == 625 && Pow(5, 5) == 3125 && Pow(5, 6) == 15625;
    assert Pow(5, 7) == 78125 && Pow(5, 8) == 390625;
  }

  /** The public values of the keys 1 and 28. */
  method RunExample() returns (one: Option<seq<Byte>>, other: Option<seq<Byte>>)
    ensures one == Some([5, 0, 0, 0, 0, 0, 0, 0])
    ensures other == Some([0x87, 0x26, 0x50, 0xe2, 0xe3, 0xe5, 0xfc, 0x04])
  {
    hide Pow, Word;
    WordIs(1, 0, 0, 0, 0, 0, 0, 0);
    WordIs(28, 0, 0, 0, 0, 0, 0, 0);
    WordIs(5, 0, 0, 0, 0, 0, 0, 0);
    WordIs(0x87, 0x26, 0x50, 0xe2, 0xe3, 0xe5, 0xfc, 0x04);
    Fives();
    FirstReduced();
    one := DhExchange([1, 0, 0, 0, 0, 0, 0, 0]);
    other := DhExchange([28, 0, 0, 0, 0, 0, 0, 0]);
    SameWord(one.value, [5, 0, 0, 0, 0, 0, 0, 0]);
    SameWord(other.value, [0x87, 0x26, 0x50, 0xe2, 0xe3, 0xe5, 0xfc, 0x04]);
  }

  lemma SameWord(s: seq<Byte>, t: seq<Byte>)
    requires |s| == |t| && Word(s) == Word(t)
    ensures s == t
  {
    SameVal(s, t);
  }
}
