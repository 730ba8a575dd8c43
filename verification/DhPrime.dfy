/** The modulus of the key exchange (lualib/lcrypt.c) is what its comment says: the biggest prime of 64
    bits. So a secret is zero only for a public value that is a multiple of it.

    The proof is the one of Pocklington: the order of a number modulo any divisor is a multiple of a
    large prime, and smaller than the divisor.
 */
module DhPrime {
  import opened Basics
  import opened LittleEndian
  import opened DhExchange

  ghost predicate Prime(n: nat) { n >= 2 && forall d: nat :: 2 <= d < n ==> n % d != 0 }

  // --------------------------------------------------------------- remainders

  lemma Quotient(n: nat, d: nat)
    requires d > 0
    ensures n == d * (n / d) + n % d && n % d < d
  {
  }

  lemma Multiple(d: nat, q: nat, n: nat)
    requires d > 0 && n == d * q
    ensures n % d == 0
  {
    assert n == 0 + q * d;
    SameRemainder(n, 0, q, d);
  }

  /** A remainder modulo a number, modulo one of its divisors. */
  lemma Finer(x: nat, n: nat, r: nat)
    requires r > 0 && n > 0 && n % r == 0
    ensures (x % n) % r == x % r
  {
    Quotient(x, n);
    Quotient(n, r);
    var k := (n / r) * (x / n);
    assert n * (x / n) == k * r by { Regrouped(r, n / r, x / n, n); }
    SameRemainder(x, x % n, k, r);
  }

  lemma Regrouped(r: nat, c: nat, q: nat, n: nat)
    requires n == r * c
    ensures n * q == (c * q) * r
  {
    assert (r * c) * q == r * (c * q);
  }

  lemma SmallRemainder(x: nat, r: nat)
    requires x < r
    ensures x % r == x
  {
  }

  // ------------------------------------------------------------ prime numbers

  /** The least number of times that x must be taken to make a multiple of l. */
  lemma LeastTimes(x: nat, l: nat) returns (k: nat)
    requires l > 0
    ensures 0 < k <= l && (k * x) % l == 0 && forall j :: 0 < j < k ==> (j * x) % l != 0
  {
    Multiple(l, x, l * x);
    k := 1;
    while (k * x) % l != 0
      invariant 0 < k <= l && forall j :: 0 < j < k ==> (j * x) % l != 0
      decreases l - k
    {
      k := k + 1;
    }
  }

  /** It divides every such number. */
  lemma TimesDivide(x: nat, l: nat, k: nat, n: nat)
    requires l > 0 && k > 0 && (k * x) % l == 0 && forall j :: 0 < j < k ==> (j * x) % l != 0
    requires (n * x) % l == 0
    ensures n % k == 0
  {
    Quotient(n, k);
    var q, s := n / k, n % k;
    Quotient(k * x, l);
    var c := (k * x) / l;
    assert n * x == s * x + (c * q) * l by { Taken(n, k, q, s, x, l, c); }
    SameRemainder(n * x, s * x, c * q, l);
  }

  lemma Taken(n: nat, k: nat, q: nat, s: nat, x: nat, l: nat, c: nat)
    requires n == k * q + s && k * x == l * c
    ensures n * x == s * x + (c * q) * l
  {
    assert (k * q + s) * x == (k * q) * x + s * x;
    assert (k * q) * x == (k * x) * q;
    assert (l * c) * q == (c * q) * l;
  }

  lemma PrimeLarge(l: nat)
    requires Prime(l)
    ensures l >= 2
  {
  }

  lemma OnlyItself(l: nat, k: nat)
    requires Prime(l) && 1 < k <= l && l % k == 0
    ensures k == l
  {
  }

  /** A prime that divides a product divides one of the factors. */
  lemma PrimeDivides(l: nat, x: nat, y: nat)
    requires Prime(l) && (x * y) % l == 0 && x % l != 0
    ensures y % l == 0
  {
    PrimeLarge(l);
    hide Prime;
    var k := LeastTimes(x, l);
    Multiple(l, x, l * x);
    TimesDivide(x, l, k, l);
    assert 1 * x == x && y * x == x * y;
    if k > 1 {
      OnlyItself(l, k);
      TimesDivide(x, l, k, y);
    }
  }

  predicate NoDivisor(n: nat, d: nat) { d < 2 || (n % d != 0 && NoDivisor(n, d - 1)) }

  lemma {:induction false} NoneBelow(n: nat, b: nat, d: nat)
    requires NoDivisor(n, b) && 2 <= d <= b
    ensures n % d != 0
    decreases b
  {
    if d < b { NoneBelow(n, b - 1, d); }
  }

  /** Divisors come in pairs, and one of each pair is small. */
  lemma PrimeBySmall(n: nat, b: nat)
    requires n >= 2 && n < (b + 1) * (b + 1) && NoDivisor(n, b) && b < n
    ensures Prime(n)
  {
    forall d: nat | 2 <= d < n ensures n % d != 0 { NotBy(n, b, d); }
  }

  lemma NotBy(n: nat, b: nat, d: nat)
    requires 2 <= d < n < (b + 1) * (b + 1) && NoDivisor(n, b) && b < n
    ensures n % d != 0
  {
    hide NoDivisor;
    if n % d == 0 {
      TwoDivisors(n, d);
      if d <= b {
        NoneBelow(n, b, d);
      } else if n / d <= b {
        NoneBelow(n, b, n / d);
      } else {
        Square(b + 1, d, n / d);
      }
    }
  }

  lemma TwoDivisors(n: nat, d: nat)
    requires 2 <= d < n && n % d == 0
    ensures n == d * (n / d) && n / d > 1 && n % (n / d) == 0
  {
    Quotient(n, d);
    var c := n / d;
    assert d * 0 == 0 && d * 1 == d && n == c * d;
    Multiple(c, d, n);
  }

  lemma Square(b: nat, d: nat, c: nat)
    requires d >= b && c >= b
    ensures d * c >= b * b
  {
    assert d * c >= b * c by { Wider(d, b, c); }
    assert c * b >= b * b by { Wider(c, b, b); }
    assert b * c == c * b;
  }

  lemma Wider(d: nat, b: nat, c: nat)
    requires d >= b
    ensures d * c >= b * c
  {
    assert d * c - b * c == (d - b) * c;
  }

  // ------------------------------------------------------------------- orders

  /** `e` is the order of `a` modulo `r`. */
  ghost predicate Order(a: nat, r: nat, e: nat) {
    r > 1 && e > 0 && Pow(a, e) % r == 1 && forall k: nat :: 0 < k < e ==> Pow(a, k) % r != 1
  }

  lemma LeastOrder(a: nat, r: nat, n: nat) returns (e: nat)
    requires r > 1 && n > 0 && Pow(a, n) % r == 1
    ensures Order(a, r, e)
  {
    hide Pow;
    e := 1;
    while Pow(a, e) % r != 1
      invariant 0 < e <= n && forall k: nat :: 0 < k < e ==> Pow(a, k) % r != 1
      decreases n - e
    {
      e := e + 1;
    }
  }

  lemma OrderTimes(a: nat, r: nat, e: nat, q: nat)
    requires r > 1 && Pow(a, e) % r == 1
    ensures Pow(a, e * q) % r == 1
  {
    PowMul(a, e, q);
    PowReduced(Pow(a, e), q, r);
    PowOne(q);
    SmallRemainder(1, r);
  }

  /** The order divides every exponent that gives one. */
  lemma OrderDivides(a: nat, r: nat, e: nat, n: nat)
    requires Order(a, r, e) && Pow(a, n) % r == 1
    ensures n % e == 0
  {
    hide Pow;
    Quotient(n, e);
    var q, s := n / e, n % e;
    OrderTimes(a, r, e, q);
    PowAdd(a, e * q, s);
    ModMul(Pow(a, e * q), Pow(a, s), r);
    assert 1 * Pow(a, s) == Pow(a, s);
  }

  /** Below the order, the powers are different and not zero. */
  lemma PowersDiffer(a: nat, r: nat, e: nat, i: nat, j: nat)
    requires Order(a, r, e) && i < j < e
    ensures Pow(a, i) % r != Pow(a, j) % r
  {
    hide Pow;
    var x, y, z := Pow(a, i), Pow(a, e - i), Pow(a, j - i);
    PowAdd(a, i, e - i);
    PowAdd(a, j - i, i);
    ModMul(x, y, r);
    ModMul(z * x, y, r);
    ModMul(z, x * y, r);
    assert (z * x) * y == z * (x * y) && z * 1 == z;
  }

  lemma PowersNotZero(a: nat, r: nat, e: nat, i: nat)
    requires Order(a, r, e) && i < e
    ensures Pow(a, i) % r != 0
  {
    hide Pow;
    PowAdd(a, i, e - i);
    ModMul(Pow(a, i), Pow(a, e - i), r);
  }

  ghost function Upto(r: nat): (s: set<nat>)
    ensures |s| == r && forall k: nat :: k in s <==> k < r
  {
    if r == 0 then {} else Upto(r - 1) + {r - 1}
  }

  /** As many different numbers as there are below r, without zero, are less than r. */
  lemma {:induction false} Pigeons(s: seq<nat>, r: nat)
    requires r > 0 && forall i :: 0 <= i < |s| ==> 0 < s[i] < r
    requires forall i, j :: 0 <= i < j < |s| ==> s[i] != s[j]
    ensures |s| < r
  {
    var x := set i | 0 <= i < |s| :: s[i];
    AllDifferent(s, x);
    Subsets(x + {0}, Upto(r));
    assert 0 !in x;
  }

  lemma {:induction false} AllDifferent(s: seq<nat>, x: set<nat>)
    requires forall i, j :: 0 <= i < j < |s| ==> s[i] != s[j]
    requires x == set i | 0 <= i < |s| :: s[i]
    ensures |x| == |s|
    decreases |s|
  {
    if s != [] {
      var n := |s| - 1;
      var y := set i | 0 <= i < n :: s[..n][i];
      AllDifferent(s[..n], y);
      assert x == y + {s[n]};
    }
  }

  lemma {:induction false} Subsets(x: set<nat>, y: set<nat>)
    requires x <= y
    ensures |x| <= |y|
    decreases x
  {
    if x != {} {
      var k :| k in x;
      Subsets(x - {k}, y - {k});
    }
  }

  /** The order is less than the modulus. */
  lemma OrderSmall(a: nat, r: nat, e: nat)
    requires Order(a, r, e)
    ensures e < r
  {
    hide Pow;
    var s: seq<nat> := seq(e, i requires 0 <= i < e => Pow(a, i) % r);
    forall i | 0 <= i < e ensures 0 < s[i] < r { PowersNotZero(a, r, e, i); }
    forall i, j | 0 <= i < j < e ensures s[i] != s[j] { PowersDiffer(a, r, e, i, j); }
    Pigeons(s, r);
  }

  /** A prime that is needed to come to one divides the order. */
  lemma OrderHas(a: nat, r: nat, e: nat, l: nat, m: nat)
    requires Order(a, r, e) && Prime(l) && Pow(a, l * m) % r == 1 && Pow(a, m) % r != 1
    ensures e % l == 0
  {
    hide Pow, Prime;
    OrderDivides(a, r, e, l * m);
    Quotient(l * m, e);
    var c := (l * m) / e;
    assert l > 0 by { PrimeLarge(l); }
    Multiple(l, m, e * c);
    if e % l != 0 {
      PrimeDivides(l, e, c);
      Quotient(c, l);
      var d := c / l;
      Cancelled(l, m, e, c, d);
      OrderTimes(a, r, e, d);
    }
  }

  lemma Cancelled(l: nat, m: nat, e: nat, c: nat, d: nat)
    requires l > 0 && l * m == e * c && c == l * d
    ensures m == e * d
  {
    assert e * (l * d) == l * (e * d);
    assert l * (m - e * d) == 0;
    MultipleIsLarge(m - e * d, l);
  }

  // -------------------------------------------------------------- certificates

  /** From a modulus to its divisors: what is one stays one, and what is not one by an inverse stays not
      one. */
  lemma Stays(a: nat, k: nat, n: nat, r: nat)
    requires r > 1 && n > 0 && n % r == 0
    ensures Pow(a, k) % n == 1 ==> Pow(a, k) % r == 1
  {
    hide Pow;
    Finer(Pow(a, k), n, r);
    SmallRemainder(1, r);
  }

  lemma NotOne(a: nat, k: nat, n: nat, r: nat, w: nat, inverse: nat)
    requires r > 1 && n > 0 && n % r == 0 && Pow(a, k) % n == w && w > 0 && ((w - 1) * inverse) % n == 1
    ensures Pow(a, k) % r != 1
  {
    hide Pow;
    Finer(Pow(a, k), n, r);
    Finer((w - 1) * inverse, n, r);
    SmallRemainder(1, r);
    if w % r == 1 {
      Quotient(w, r);
      Multiple(r, w / r, w - 1);
      ModMul(w - 1, inverse, r);
      SmallRemainder(0, r);
    }
  }

  ghost function Power(a: nat, k: nat, n: nat): nat
    requires n > 0
  {
    Pow(a, k) % n
  }

  lemma PowerIs(a: nat, k: nat, n: nat)
    requires n > 1 && a < n
    ensures Power(a, k, n) == Pow(a, k) % n && Power(a, 1, n) == a
  {
    PowFirst(a);
  }

  /** One more binary digit of the exponent. */
  lemma Twice(a: nat, k: nat, n: nat, x: nat, q: nat, y: nat)
    requires n > 1 && Power(a, k, n) == x && x * x == q * n + y && y < n
    ensures Power(a, 2 * k, n) == y
  {
    hide Pow;
    var p := Pow(a, k);
    PowAdd(a, k, k);
    ModMul(p, p, n);
    ModMul(x, p, n);
    SameRemainder(x * x, y, q, n);
    SmallRemainder(y, n);
  }

  lemma Onemore(a: nat, k: nat, n: nat, x: nat, q: nat, y: nat)
    requires n > 1 && Power(a, k, n) == x && x * a == q * n + y && y < n
    ensures Power(a, k + 1, n) == y
  {
    hide Pow;
    PowAdd(a, k, 1);
    PowFirst(a);
    ModMul(Pow(a, k), a, n);
    SameRemainder(x * a, y, q, n);
    SmallRemainder(y, n);
  }

  /** The large prime factor of P - 1. */
  const LARGE: nat := 5594472617641

  lemma PowerP1()
    requires Power(5, 1, P) == 5
    ensures Power(5, 206082, P) == 17491312316847402415
  {
    hide Power;
    Twice(5, 1, P, 5, 0, 25);
    Onemore(5, 2, P, 25, 0, 125);
    Twice(5, 3, P, 125, 0, 15625);
    Twice(5, 6, P, 15625, 0, 244140625);
    Twice(5, 12, P, 244140625, 0, 59604644775390625);
    Onemore(5, 24, P, 59604644775390625, 0, 298023223876953125);
    Twice(5, 25, P, 298023223876953125, 4814824860968089, 11954221820370001052);
    Twice(5, 50, P, 11954221820370001052, 7746809884692733801, 13389378850395028547);
    Twice(5, 100, P, 13389378850395028547, 9718542485495342042, 10127022524796271815);
    Onemore(5, 200, P, 10127022524796271815, 2, 13741624476562255961);
    Twice(5, 201, P, 13741624476562255961, 10236616418611245944, 360471388404898713);
    Twice(5, 402, P, 360471388404898713, 7044041015549532, 5783911388147835045);
    Onemore(5, 804, P, 5783911388147835045, 1, 10472812867029623668);
    Twice(5, 805, P, 10472812867029623668, 5945754378635186623, 7822850191370552213);
    Twice(5, 1610, P, 7822850191370552213, 3317495210650464987, 15929001843259362610);
    Twice(5, 3220, P, 15929001843259362610, 13754898897534044066, 15128664177929101338);
    Twice(5, 6440, P, 15128664177929101338, 12407418831963512558, 5751566511555437438);
    Twice(5, 12880, P, 5751566511555437438, 1793298438177640464, 6629805477714601396);
    Twice(5, 25760, P, 6629805477714601396, 2382768498153480991, 14773176534031195829);
    Twice(5, 51520, P, 14773176534031195829, 11831179748229770115, 11351846777896678186);
    Onemore(5, 103040, P, 11351846777896678186, 3, 1419001668354736259);
    Twice(5, 103041, P, 1419001668354736259, 109155617205275538, 17491312316847402415);
  }

  lemma PowerP2()
    requires Power(5, 206082, P) == 17491312316847402415
    ensures Power(5, 3297316, P) == 7293648916228302286
  {
    hide Power;
    Twice(5, 206082, P, 17491312316847402415, 16585366249078847509, 11147666910171310712);
    Twice(5, 412164, P, 11147666910171310712, 6736716086240913622, 16218578256453337490);
    Onemore(5, 824328, P, 16218578256453337490, 4, 7305914987428481222);
    Twice(5, 824329, P, 7305914987428481222, 2893540106061566274, 6595220896031224666);
    Twice(5, 1648658, P, 6595220896031224666, 2357973769985734110, 7293648916228302286);
  }

  lemma PowerP()
    ensures Pow(5, 3297316) % P == 7293648916228302286
  {
    hide Pow, Power;
    PowerIs(5, 1, P);
    PowerIs(5, 3297316, P);
    PowerP1();
    PowerP2();
  }

  lemma PowerQ1()
    requires Power(7293648916228302286, 1, P) == 7293648916228302286
    ensures Power(7293648916228302286, 83364, P) == 17751825700779202077
  {
    hide Power;
    Twice(7293648916228302286, 1, P, 7293648916228302286, 2883832198280211965, 12696675318737046291);
    Twice(7293648916228302286, 2, P, 12696675318737046291, 8738971143377976730, 2648193392795588071);
    Onemore(7293648916228302286, 4, P, 2648193392795588071, 1047067861523290463, 17745822784538729415);
    Twice(7293648916228302286, 5, P, 17745822784538729415, 17071534415066353064, 869407355713321577);
    Twice(7293648916228302286, 10, P, 869407355713321577, 40975748736369194, 1282406636084231871);
    Twice(7293648916228302286, 20, P, 1282406636084231871, 89152143798467142, 16057447299272720547);
    Twice(7293648916228302286, 40, P, 16057447299272720547, 13977621890271613551, 15233041831741630302);
    Onemore(7293648916228302286, 80, P, 15233041831741630302, 6022984793576103530, 12644168643608774162);
    Twice(7293648916228302286, 81, P, 12644168643608774162, 8666841153603604676, 5779411105650521712);
    Twice(7293648916228302286, 162, P, 5779411105650521712, 1810703970015001466, 2963965396225828382);
    Onemore(7293648916228302286, 324, P, 2963965396225828382, 1171920796078643873, 13480790320318620991);
    Twice(7293648916228302286, 325, P, 13480790320318620991, 9851695612745108960, 13812178389203171361);
    Onemore(7293648916228302286, 650, P, 13812178389203171361, 5461190307439719457, 17900086430808486697);
    Twice(7293648916228302286, 651, P, 17900086430808486697, 17369628642870881193, 8943344369770802308);
    Twice(7293648916228302286, 1302, P, 8943344369770802308, 4335909263809005084, 16871873062045011076);
    Onemore(7293648916228302286, 2604, P, 16871873062045011076, 6670961454336467493, 5975745579008083135);
    Twice(7293648916228302286, 2605, P, 5975745579008083135, 1935817783471510746, 17019677894104896703);
    Twice(7293648916228302286, 5210, P, 17019677894104896703, 15703011570042981596, 10042077625936125237);
    Twice(7293648916228302286, 10420, P, 10042077625936125237, 5466727496320049380, 936447161452421509);
    Onemore(7293648916228302286, 20840, P, 936447161452421509, 370261374958134847, 5240215933235462795);
    Twice(7293648916228302286, 20841, P, 5240215933235462795, 1488602157497855165, 15248518796342970120);
    Twice(7293648916228302286, 41682, P, 15248518796342970120, 12604789471428208839, 17751825700779202077);
  }

  lemma PowerQ2()
    requires Power(7293648916228302286, 83364, P) == 17751825700779202077
    ensures Power(7293648916228302286, 5463352164, P) == 15962468880216651169
  {
    hide Power;
    Twice(7293648916228302286, 83364, P, 17751825700779202077, 17083086015161179638, 5183787484701517563);
    Twice(7293648916228302286, 166728, P, 5183787484701517563, 1456715211051568842, 2641092130063671975);
    Twice(7293648916228302286, 333456, P, 2641092130063671975, 378135437430696196, 13939694746934623453);
    Onemore(7293648916228302286, 666912, P, 13939694746934623453, 5511608936367027795, 15292145444464586743);
    Twice(7293648916228302286, 666913, P, 15292145444464586743, 12677018305248973958, 1161576947219995443);
    Twice(7293648916228302286, 1333826, P, 1161576947219995443, 73143585606302292, 17667273140639497605);
    Twice(7293648916228302286, 2667652, P, 17667273140639497605, 16920738910820345324, 7157291762878866557);
    Twice(7293648916228302286, 5335304, P, 7157291762878866557, 2777011768270941542, 9397262958030953355);
    Onemore(7293648916228302286, 10670608, P, 9397262958030953355, 3715579102495332706, 5703124444930546288);
    Twice(7293648916228302286, 10670609, P, 5703124444930546288, 1763217850499706324, 7958566635873632476);
    Onemore(7293648916228302286, 21341218, P, 7958566635873632476, 3146733683002600162, 11611896711399087902);
    Twice(7293648916228302286, 21341219, P, 11611896711399087902, 7309482079733003629, 8145260011279161251);
    Twice(7293648916228302286, 42682438, P, 8145260011279161251, 3596583786615178484, 12622117540904785413);
    Onemore(7293648916228302286, 85364876, P, 12622117540904785413, 4990652743642328226, 15905482984264006236);
    Twice(7293648916228302286, 85364877, P, 15905482984264006236, 13714311205914502241, 16554325473665348459);
    Onemore(7293648916228302286, 170729754, P, 16554325473665348459, 6545406472135725950, 10356876483028473124);
    Twice(7293648916228302286, 170729755, P, 10356876483028473124, 5814841364747019049, 15083997648463710083);
    Twice(7293648916228302286, 341459510, P, 15083997648463710083, 12334262574994577488, 8429336261908318073);
    Twice(7293648916228302286, 682919020, P, 8429336261908318073, 3851829327300573189, 173288717491028056);
    Onemore(7293648916228302286, 1365838040, P, 173288717491028056, 68516539367202463, 8586695084319051125);
    Twice(7293648916228302286, 1365838041, P, 8586695084319051125, 3996983542269198945, 4409044210796258260);
    Twice(7293648916228302286, 2731676082, P, 4409044210796258260, 1053826668548059683, 15962468880216651169);
  }

  lemma PowerQ3()
    requires Power(7293648916228302286, 5463352164, P) == 15962468880216651169
    ensures Power(7293648916228302286, 5594472617641, P) == 1
  {
    hide Power;
    Onemore(7293648916228302286, 5463352164, P, 15962468880216651169, 6311392589570834956, 2461840748327445842);
    Twice(7293648916228302286, 5463352165, P, 2461840748327445842, 328549029894285781, 14362504377131577947);
    Onemore(7293648916228302286, 10926704330, P, 14362504377131577947, 5678783424652578343, 10758760633747156791);
    Twice(7293648916228302286, 10926704331, P, 10758760633747156791, 6274870508949960574, 17320055813967103963);
    Twice(7293648916228302286, 21853408662, P, 17320055813967103963, 16262183299137096600, 1601688464260899169);
    Onemore(7293648916228302286, 43706817324, P, 1601688464260899169, 633290801065613538, 12872799765650021668);
    Twice(7293648916228302286, 43706817325, P, 12872799765650021668, 8983101470068586186, 10711814405804510622);
    Twice(7293648916228302286, 87413634650, P, 10711814405804510622, 6220228751800901508, 585198857905778928);
    Onemore(7293648916228302286, 174827269300, P, 585198857905778928, 231381483837337328, 1863910570056409712);
    Twice(7293648916228302286, 174827269301, P, 1863910570056409712, 188334732638233692, 3027548785719464500);
    Twice(7293648916228302286, 349654538602, P, 3027548785719464500, 496892655597414327, 3015350194863292861);
    Onemore(7293648916228302286, 699309077204, P, 3015350194863292861, 1192237805920337055, 15412459903313735611);
    Twice(7293648916228302286, 699309077205, P, 15412459903313735611, 12877281720940832893, 10807440826504578920);
    Twice(7293648916228302286, 1398618154410, P, 10807440826504578920, 6331782820409124974, 8090650622199081882);
    Twice(7293648916228302286, 2797236308820, P, 8090650622199081882, 3548519306655452257, 14872935431247147775);
    Onemore(7293648916228302286, 5594472617640, P, 14872935431247147775, 5880602503932005757, 1);
  }

  lemma PowerQ()
    ensures Pow(7293648916228302286, 5594472617641) % P == 1
  {
    hide Pow, Power;
    PowerIs(7293648916228302286, 1, P);
    PowerIs(7293648916228302286, 5594472617641, P);
    PowerQ1();
    PowerQ2();
    PowerQ3();
  }

  lemma OneP()
    ensures Pow(5, P - 1) % P == 1
  {
    hide Pow;
    PowerP();
    PowerQ();
    PowMul(5, 3297316, LARGE);
    PowReduced(Pow(5, 3297316), LARGE, P);
    assert P - 1 == 3297316 * LARGE;
  }

  lemma PowerA1()
    requires Power(2, 1, LARGE) == 2
    ensures Power(2, 29910, LARGE) == 3404477095348
  {
    hide Power;
    Twice(2, 1, LARGE, 2, 0, 4);
    Onemore(2, 2, LARGE, 4, 0, 8);
    Twice(2, 3, LARGE, 8, 0, 64);
    Onemore(2, 6, LARGE, 64, 0, 128);
    Twice(2, 7, LARGE, 128, 0, 16384);
    Twice(2, 14, LARGE, 16384, 0, 268435456);
    Onemore(2, 28, LARGE, 268435456, 0, 536870912);
    Twice(2, 29, LARGE, 536870912, 51520, 3146890847424);
    Twice(2, 58, LARGE, 3146890847424, 1770126101676, 2950210169460);
    Twice(2, 116, LARGE, 2950210169460, 1555774894051, 3554508137909);
    Onemore(2, 232, LARGE, 3554508137909, 1, 1514543658177);
    Twice(2, 233, LARGE, 1514543658177, 410019433340, 2860111412389);
    Onemore(2, 466, LARGE, 2860111412389, 1, 125750207137);
    Twice(2, 467, LARGE, 125750207137, 2826560370, 2924192249599);
    Twice(2, 934, LARGE, 2924192249599, 1528455119371, 594820236990);
    Onemore(2, 1868, LARGE, 594820236990, 0, 1189640473980);
    Twice(2, 1869, LARGE, 1189640473980, 252971916042, 2212036943478);
    Twice(2, 3738, LARGE, 2212036943478, 874632476327, 550911651877);
    Onemore(2, 7476, LARGE, 550911651877, 0, 1101823303754);
    Twice(2, 7477, LARGE, 1101823303754, 217002508666, 4038543515610);
    Onemore(2, 14954, LARGE, 4038543515610, 1, 2482614413579);
    Twice(2, 14955, LARGE, 2482614413579, 1101689962173, 3404477095348);
  }

  lemma PowerA2()
    requires Power(2, 29910, LARGE) == 3404477095348
    ensures Power(2, 245027707, LARGE) == 377800259509
  {
    hide Power;
    Twice(2, 29910, LARGE, 3404477095348, 2071770671680, 3692696134224);
    Onemore(2, 59820, LARGE, 3692696134224, 1, 1790919650807);
    Twice(2, 59821, LARGE, 1790919650807, 573314665180, 5138739310869);
    Twice(2, 119642, LARGE, 5138739310869, 4720130655712, 1762632919769);
    Twice(2, 239284, LARGE, 1762632919769, 555347218977, 3483170840104);
    Onemore(2, 478568, LARGE, 3483170840104, 1, 1371869062567);
    Twice(2, 478569, LARGE, 1371869062567, 336407889260, 4983510193829);
    Onemore(2, 957138, LARGE, 4983510193829, 1, 4372547770017);
    Twice(2, 957139, LARGE, 4372547770017, 3417511409528, 545815896841);
    Twice(2, 1914278, LARGE, 545815896841, 53251667065, 5467576085616);
    Onemore(2, 3828556, LARGE, 5467576085616, 1, 5340679553591);
    Twice(2, 3828557, LARGE, 5340679553591, 5098399803442, 2437419274959);
    Onemore(2, 7657114, LARGE, 2437419274959, 0, 4874838549918);
    Twice(2, 7657115, LARGE, 4874838549918, 4247773206152, 146412879292);
    Onemore(2, 15314230, LARGE, 146412879292, 0, 292825758584);
    Twice(2, 15314231, LARGE, 292825758584, 15327079199, 3074598135497);
    Onemore(2, 30628462, LARGE, 3074598135497, 1, 554723653353);
    Twice(2, 30628463, LARGE, 554723653353, 55003992801, 3182118540168);
    Twice(2, 61256926, LARGE, 3182118540168, 1809979080378, 3163829719926);
    Onemore(2, 122513852, LARGE, 3163829719926, 1, 733186822211);
    Twice(2, 122513853, LARGE, 733186822211, 96088220106, 2986136438575);
    Onemore(2, 245027706, LARGE, 2986136438575, 1, 377800259509);
  }

  lemma PowerA3()
    requires Power(2, 245027707, LARGE) == 377800259509
    ensures Power(2, 3920443320, LARGE) == 2485137133130
  {
    hide Power;
    Twice(2, 245027707, LARGE, 377800259509, 25513224541, 2716874193300);
    Onemore(2, 490055414, LARGE, 2716874193300, 0, 5433748386600);
    Twice(2, 490055415, LARGE, 5433748386600, 5277641620011, 4076042345949);
    Twice(2, 980110830, LARGE, 4076042345949, 2969738586900, 5500045207701);
    Twice(2, 1960221660, LARGE, 5500045207701, 5407211609431, 2485137133130);
  }

  lemma PowerA()
    ensures Pow(2, 3920443320) % LARGE == 2485137133130
  {
    hide Pow, Power;
    PowerIs(2, 1, LARGE);
    PowerIs(2, 3920443320, LARGE);
    PowerA1();
    PowerA2();
    PowerA3();
  }

  lemma PowerB1()
    requires Power(2, 1, LARGE) == 2
    ensures Power(2, 20029, LARGE) == 3501089609569
  {
    hide Power;
    Twice(2, 1, LARGE, 2, 0, 4);
    Twice(2, 2, LARGE, 4, 0, 16);
    Twice(2, 4, LARGE, 16, 0, 256);
    Onemore(2, 8, LARGE, 256, 0, 512);
    Twice(2, 9, LARGE, 512, 0, 262144);
    Onemore(2, 18, LARGE, 262144, 0, 524288);
    Twice(2, 19, LARGE, 524288, 0, 274877906944);
    Onemore(2, 38, LARGE, 274877906944, 0, 549755813888);
    Twice(2, 39, LARGE, 549755813888, 54023225344, 983040);
    Twice(2, 78, LARGE, 983040, 0, 966367641600);
    Twice(2, 156, LARGE, 966367641600, 166926622500, 3037500);
    Twice(2, 312, LARGE, 3037500, 1, 3631933632359);
    Onemore(2, 624, LARGE, 3631933632359, 1, 1669394647077);
    Twice(2, 625, LARGE, 1669394647077, 498148561653, 4383400723356);
    Onemore(2, 1250, LARGE, 4383400723356, 1, 3172328829071);
    Twice(2, 1251, LARGE, 3172328829071, 1798859497143, 5009763823378);
    Onemore(2, 2502, LARGE, 5009763823378, 1, 4425055029115);
    Twice(2, 2503, LARGE, 4425055029115, 3500081839519, 4367087328546);
    Onemore(2, 5006, LARGE, 4367087328546, 1, 3139702039451);
    Twice(2, 5007, LARGE, 3139702039451, 1762047930210, 1923977546791);
    Twice(2, 10014, LARGE, 1923977546791, 661669089036, 4547781113605);
    Onemore(2, 20028, LARGE, 4547781113605, 1, 3501089609569);
  }

  lemma PowerB2()
    requires Power(2, 20029, LARGE) == 3501089609569
    ensures Power(2, 328160055, LARGE) == 3550188857359
  {
    hide Power;
    Twice(2, 20029, LARGE, 3501089609569, 2191024836832, 4048906612449);
    Twice(2, 40058, LARGE, 4048906612449, 2930328893672, 2987281309849);
    Onemore(2, 80116, LARGE, 2987281309849, 1, 380090002057);
    Twice(2, 80117, LARGE, 380090002057, 25823418852, 2301877063117);
    Twice(2, 160234, LARGE, 2301877063117, 947120198067, 3593323455742);
    Twice(2, 320468, LARGE, 3593323455742, 2307987604921, 260029759203);
    Onemore(2, 640936, LARGE, 260029759203, 0, 520059518406);
    Twice(2, 640937, LARGE, 520059518406, 48344485918, 2498729901398);
    Onemore(2, 1281874, LARGE, 2498729901398, 0, 4997459802796);
    Twice(2, 1281875, LARGE, 4997459802796, 4464157068498, 1256209244398);
    Twice(2, 2563750, LARGE, 1256209244398, 282075143371, 4775355574593);
    Twice(2, 5127500, LARGE, 4775355574593, 4076169895244, 1299750716245);
    Onemore(2, 10255000, LARGE, 1299750716245, 0, 2599501432490);
    Twice(2, 10255001, LARGE, 2599501432490, 1207872155135, 3782537863565);
    Onemore(2, 20510002, LARGE, 3782537863565, 1, 1970603109489);
    Twice(2, 20510003, LARGE, 1970603109489, 694127379028, 653995608173);
    Twice(2, 41020006, LARGE, 653995608173, 76452292243, 221215139166);
    Onemore(2, 82040012, LARGE, 221215139166, 0, 442430278332);
    Twice(2, 82040013, LARGE, 442430278332, 34988919342, 5262433390002);
    Onemore(2, 164080026, LARGE, 5262433390002, 1, 4930394162363);
    Twice(2, 164080027, LARGE, 4930394162363, 4345143547509, 4572330737500);
    Onemore(2, 328160054, LARGE, 4572330737500, 1, 3550188857359);
  }

  lemma PowerB3()
    requires Power(2, 328160055, LARGE) == 3550188857359
    ensures Power(2, 2625280440, LARGE) == 1346892610175
  {
    hide Power;
    Twice(2, 328160055, LARGE, 3550188857359, 2252909574205, 4884966904476);
    Twice(2, 656320110, LARGE, 4884966904476, 4265442569614, 45761874002);
    Twice(2, 1312640220, LARGE, 45761874002, 374324669, 1346892610175);
  }

  lemma PowerB()
    ensures Pow(2, 2625280440) % LARGE == 1346892610175
  {
    hide Pow, Power;
    PowerIs(2, 1, LARGE);
    PowerIs(2, 2625280440, LARGE);
    PowerB1();
    PowerB2();
    PowerB3();
  }

  lemma PowerL1()
    requires Power(2485137133130, 1, LARGE) == 2485137133130
    ensures Power(2485137133130, 1427, LARGE) == 1
  {
    hide Power;
    Twice(2485137133130, 1, LARGE, 2485137133130, 1103930073942, 2671919986078);
    Twice(2485137133130, 2, LARGE, 2671919986078, 1276108920345, 5537203015939);
    Onemore(2485137133130, 4, LARGE, 5537203015939, 2459697234945, 2352226294325);
    Twice(2485137133130, 5, LARGE, 2352226294325, 989006277779, 4257425506286);
    Onemore(2485137133130, 10, LARGE, 4257425506286, 1891203503944, 4707886379076);
    Twice(2485137133130, 11, LARGE, 4707886379076, 3961802241805, 2529979931771);
    Twice(2485137133130, 22, LARGE, 2529979931771, 1144129016733, 2703815209588);
    Twice(2485137133130, 44, LARGE, 2703815209588, 1306757077431, 3090873569473);
    Onemore(2485137133130, 88, LARGE, 3090873569473, 1373006037617, 3345801138993);
    Twice(2485137133130, 89, LARGE, 3345801138993, 2000972393070, 1157236906179);
    Twice(2485137133130, 178, LARGE, 1157236906179, 239378641840, 771443680601);
    Twice(2485137133130, 356, LARGE, 771443680601, 106377382286, 3861939213875);
    Onemore(2485137133130, 712, LARGE, 3861939213875, 1715523374987, 3798703833083);
    Twice(2485137133130, 713, LARGE, 3798703833083, 2579358555796, 719252887653);
    Onemore(2485137133130, 1426, LARGE, 719252887653, 319501440329, 1);
  }

  lemma PowerL()
    ensures Pow(2485137133130, 1427) % LARGE == 1
  {
    hide Pow, Power;
    PowerIs(2485137133130, 1, LARGE);
    PowerIs(2485137133130, 1427, LARGE);
    PowerL1();
  }

  lemma OneQ()
    ensures Pow(2, LARGE - 1) % LARGE == 1
  {
    hide Pow;
    PowerA();
    PowerL();
    PowMul(2, 3920443320, 1427);
    PowReduced(Pow(2, 3920443320), 1427, LARGE);
    assert LARGE - 1 == 3920443320 * 1427;
  }

  // -------------------------------------------------------------- main results

  lemma FirstPrime()
    ensures Prime(1427)
  {
    assert NoDivisor(1427, 1) && NoDivisor(1427, 2) && NoDivisor(1427, 3) && NoDivisor(1427, 4) && NoDivisor(1427, 5);
    assert NoDivisor(1427, 6) && NoDivisor(1427, 7) && NoDivisor(1427, 8) && NoDivisor(1427, 9) && NoDivisor(1427, 10);
    assert NoDivisor(1427, 11) && NoDivisor(1427, 12) && NoDivisor(1427, 13) && NoDivisor(1427, 14) && NoDivisor(1427, 15);
    assert NoDivisor(1427, 16) && NoDivisor(1427, 17) && NoDivisor(1427, 18) && NoDivisor(1427, 19) && NoDivisor(1427, 20);
    assert NoDivisor(1427, 21) && NoDivisor(1427, 22) && NoDivisor(1427, 23) && NoDivisor(1427, 24) && NoDivisor(1427, 25);
    assert NoDivisor(1427, 26) && NoDivisor(1427, 27) && NoDivisor(1427, 28) && NoDivisor(1427, 29) && NoDivisor(1427, 30);
    assert NoDivisor(1427, 31) && NoDivisor(1427, 32) && NoDivisor(1427, 33) && NoDivisor(1427, 34) && NoDivisor(1427, 35);
    assert NoDivisor(1427, 36) && NoDivisor(1427, 37);
    PrimeBySmall(1427, 37);
  }

  lemma SecondPrime()
    ensures Prime(2131)
  {
    assert NoDivisor(2131, 1) && NoDivisor(2131, 2) && NoDivisor(2131, 3) && NoDivisor(2131, 4) && NoDivisor(2131, 5);
    assert NoDivisor(2131, 6) && NoDivisor(2131, 7) && NoDivisor(2131, 8) && NoDivisor(2131, 9) && NoDivisor(2131, 10);
    assert NoDivisor(2131, 11) && NoDivisor(2131, 12) && NoDivisor(2131, 13) && NoDivisor(2131, 14) && NoDivisor(2131, 15);
    assert NoDivisor(2131, 16) && NoDivisor(2131, 17) && NoDivisor(2131, 18) && NoDivisor(2131, 19) && NoDivisor(2131, 20);
    assert NoDivisor(2131, 21) && NoDivisor(2131, 22) && NoDivisor(2131, 23) && NoDivisor(2131, 24) && NoDivisor(2131, 25);
    assert NoDivisor(2131, 26) && NoDivisor(2131, 27) && NoDivisor(2131, 28) && NoDivisor(2131, 29) && NoDivisor(2131, 30);
    assert NoDivisor(2131, 31) && NoDivisor(2131, 32) && NoDivisor(2131, 33) && NoDivisor(2131, 34) && NoDivisor(2131, 35);
    assert NoDivisor(2131, 36) && NoDivisor(2131, 37) && NoDivisor(2131, 38) && NoDivisor(2131, 39) && NoDivisor(2131, 40);
    assert NoDivisor(2131, 41) && NoDivisor(2131, 42) && NoDivisor(2131, 43) && NoDivisor(2131, 44) && NoDivisor(2131, 45);
    assert NoDivisor(2131, 46);
    PrimeBySmall(2131, 46);
  }

  /** A divisor of LARGE is larger than 1427 * 2131. */
  lemma DivisorOfLarge(r: nat)
    requires r > 1 && LARGE % r == 0
    ensures r > 3040937
  {
    hide Pow, Prime;
    FirstPrime();
    SecondPrime();
    OneQ();
    PowerA();
    PowerB();
    Stays(2, LARGE - 1, LARGE, r);
    NotOne(2, 3920443320, LARGE, r, 2485137133130, 2490305414854);
    NotOne(2, 2625280440, LARGE, r, 1346892610175, 1933328135809);
    var e := LeastOrder(2, r, LARGE - 1);
    assert LARGE - 1 == 1427 * 3920443320 && LARGE - 1 == 2131 * 2625280440;
    OrderHas(2, r, e, 1427, 3920443320);
    OrderHas(2, r, e, 2131, 2625280440);
    BothDivide(e);
    OrderSmall(2, r, e);
  }

  lemma BothDivide(e: nat)
    requires e > 0 && e % 1427 == 0 && e % 2131 == 0 && Prime(2131)
    ensures e >= 3040937
  {
    hide Prime;
    Quotient(e, 1427);
    PrimeDivides(2131, 1427, e / 1427);
    Quotient(e / 1427, 2131);
  }

  lemma LargeIsPrime()
    ensures Prime(LARGE)
  {
    forall d: nat | 2 <= d < LARGE ensures LARGE % d != 0 {
      if LARGE % d == 0 { TwoDivisors(LARGE, d); DivisorOfLarge(d); DivisorOfLarge(LARGE / d); Square(3040937, d, LARGE / d); }
    }
  }

  /** A divisor of P is larger than LARGE. */
  lemma DivisorOfP(r: nat)
    requires r > 1 && P % r == 0
    ensures r > LARGE
  {
    hide Pow, Prime;
    LargeIsPrime();
    OneP();
    PowerP();
    Stays(5, P - 1, P, r);
    NotOne(5, 3297316, P, r, 7293648916228302286, 11180076022442021863);
    var e := LeastOrder(5, r, P - 1);
    assert P - 1 == LARGE * 3297316;
    OrderHas(5, r, e, LARGE, 3297316);
    Quotient(e, LARGE);
    OrderSmall(5, r, e);
  }

  lemma PIsPrime()
    ensures Prime(P)
  {
    forall d: nat | 2 <= d < P ensures P % d != 0 {
      if P % d == 0 { TwoDivisors(P, d); DivisorOfP(d); DivisorOfP(P / d); Square(LARGE, d, P / d); }
    }
  }

  lemma Composite(n: nat, d: nat, c: nat)
    requires n == d * c && d >= 2 && c >= 2
    ensures !Prime(n)
  {
    Multiple(d, c, n);
    assert d * c >= d * 2 by { Wider(c, 2, d); assert c * d == d * c; }
  }

  lemma Odd1(n: nat)
    requires 18446744073709551597 <= n <= 18446744073709551615 && n % 2 == 1
    ensures !Prime(n)
  {
    hide Prime;
    if n == 18446744073709551615 { Composite(n, 3, 6148914691236517205); }
    if n == 18446744073709551613 { Composite(n, 13, 1418980313362273201); }
    if n == 18446744073709551611 { Composite(n, 11, 1676976733973595601); }
    if n == 18446744073709551609 { Composite(n, 3, 6148914691236517203); }
    if n == 18446744073709551607 { Composite(n, 7, 2635249153387078801); }
    if n == 18446744073709551605 { Composite(n, 5, 3689348814741910321); }
    if n == 18446744073709551603 { Composite(n, 3, 6148914691236517201); }
    if n == 18446744073709551601 { Composite(n, 53, 348051774975651917); }
    if n == 18446744073709551599 { Composite(n, 19, 970881267037344821); }
    if n == 18446744073709551597 { Composite(n, 3, 6148914691236517199); }
  }

  lemma Odd2(n: nat)
    requires 18446744073709551577 <= n <= 18446744073709551595 && n % 2 == 1
    ensures !Prime(n)
  {
    hide Prime;
    if n == 18446744073709551595 { Composite(n, 5, 3689348814741910319); }
    if n == 18446744073709551593 { Composite(n, 7, 2635249153387078799); }
    if n == 18446744073709551591 { Composite(n, 3, 6148914691236517197); }
    if n == 18446744073709551589 { Composite(n, 11, 1676976733973595599); }
    if n == 18446744073709551587 { Composite(n, 13, 1418980313362273199); }
    if n == 18446744073709551585 { Composite(n, 3, 6148914691236517195); }
    if n == 18446744073709551583 { Composite(n, 827, 22305615566758829); }
    if n == 18446744073709551581 { Composite(n, 17, 1085102592571150093); }
    if n == 18446744073709551579 { Composite(n, 3, 6148914691236517193); }
    if n == 18446744073709551577 { Composite(n, 139646831, 132095686967); }
  }

  lemma Odd3(n: nat)
    requires 18446744073709551559 <= n <= 18446744073709551575 && n % 2 == 1
    ensures !Prime(n)
  {
    hide Prime;
    if n == 18446744073709551575 { Composite(n, 5, 3689348814741910315); }
    if n == 18446744073709551573 { Composite(n, 3, 6148914691236517191); }
    if n == 18446744073709551571 { Composite(n, 11071, 1666222028155501); }
    if n == 18446744073709551569 { Composite(n, 31, 595056260442243599); }
    if n == 18446744073709551567 { Composite(n, 3, 6148914691236517189); }
    if n == 18446744073709551565 { Composite(n, 5, 3689348814741910313); }
    if n == 18446744073709551563 { Composite(n, 29, 636094623231363847); }
    if n == 18446744073709551561 { Composite(n, 3, 6148914691236517187); }
    if n == 18446744073709551559 { Composite(n, 41, 449920587163647599); }
  }

  /** P is the biggest prime of 64 bits. */
  lemma PIsBiggest(n: nat)
    requires P < n < W64
    ensures Prime(P) && !Prime(n)
  {
    hide Prime;
    PIsPrime();
    if n % 2 == 0 {
      Composite(n, 2, n / 2);
    } else if n >= 18446744073709551597 {
      Odd1(n);
    } else if n >= 18446744073709551577 {
      Odd2(n);
    } else {
      Odd3(n);
    }
  }

  /** The shared secret is zero only for a public value that is a multiple of P. */
  lemma {:induction false} SecretIsZeroIff(x: nat, n: nat)
    requires n > 0
    ensures Pow(x, n) % P == 0 <==> x % P == 0
  {
    hide Prime;
    PIsPrime();
    if n == 1 {
      PowFirst(x);
    } else {
      SecretIsZeroIff(x, n - 1);
      ModMul(x, Pow(x, n - 1), P);
      if x % P != 0 && (x * Pow(x, n - 1)) % P == 0 { PrimeDivides(P, x, Pow(x, n - 1)); }
    }
  }
}
