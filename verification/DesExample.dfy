/** The example of FIPS 81, Table B1 (electronic codebook mode, first block): the key 0123456789abcdef
    and the text "Now is t", round by round.
 */
module DesExample {
  import opened Basics
  import opened Des
  import opened DesKeys

  const KEY: Bytes := [0x01, 0x23, 0x45, 0x67, 0x89, 0xab, 0xcd, 0xef]

  /** Now is t */
  const TEXT: Bytes := [0x4e, 0x6f, 0x77, 0x20, 0x69, 0x73, 0x20, 0x74]

  const CIPHER: Bytes := [0x3f, 0xa4, 0x0e, 0x8a, 0x98, 0x4d, 0x48, 0x15]

  /** The sixteen round keys. */
  const KEYS: seq<Pair> := [
    Pair(0x30273425, 0x02092626), Pair(0x1a191626, 0x1a190928),
    Pair(0x1d0a0212, 0x11122d23), Pair(0x28121817, 0x1c272909),
    Pair(0x0e033a02, 0x0f20051b), Pair(0x321e0805, 0x08140f15),
    Pair(0x00152e06, 0x1b120213), Pair(0x38380e01, 0x15201b16),
    Pair(0x0c292b39, 0x30270920), Pair(0x1e073132, 0x240c1835),
    Pair(0x1103183a, 0x083e0324), Pair(0x13251514, 0x1c031131),
    Pair(0x1c10183c, 0x24131203), Pair(0x04361d0d, 0x150e2032),
    Pair(0x29052135, 0x2d04021a), Pair(0x23030732, 0x32342e00)]

  lemma Start()
    ensures Halves(KEY) == Pair(0x0f0ccaa0, 0x0aaccf00)
  {
    assert KEY[..4] == [0x01, 0x23, 0x45, 0x67] && KEY[4..] == [0x89, 0xab, 0xcd, 0xef];
    assert Get32(KEY[..4]) == 0x01234567 && Get32(KEY[4..]) == 0x89abcdef;
  }

  lemma Keys1(p: Pair)
    requires Turned(p, 0) == Pair(0x0f0ccaa0, 0x0aaccf00)
    ensures Turned(p, 4) == Pair(0x0332a83c, 0x0b33c02a)
    ensures Choice2(Turned(p, 1)) == Pair(0x30273425, 0x02092626)
    ensures Choice2(Turned(p, 2)) == Pair(0x1a191626, 0x1a190928)
    ensures Choice2(Turned(p, 3)) == Pair(0x1d0a0212, 0x11122d23)
    ensures Choice2(Turned(p, 4)) == Pair(0x28121817, 0x1c272909)
  {
    assert Turned(p, 1) == Pair(0x0e199541, 0x05599e01);
    assert Turned(p, 2) == Pair(0x0c332a83, 0x0ab33c02);
    assert Turned(p, 3) == Pair(0x00ccaa0f, 0x0accf00a);
    assert Turned(p, 4) == Pair(0x0332a83c, 0x0b33c02a);
  }

  lemma Keys2(p: Pair)
    requires Turned(p, 4) == Pair(0x0332a83c, 0x0b33c02a)
    ensures Turned(p, 8) == Pair(0x02a83c33, 0x03c02ab3)
    ensures Choice2(Turned(p, 5)) == Pair(0x0e033a02, 0x0f20051b)
    ensures Choice2(Turned(p, 6)) == Pair(0x321e0805, 0x08140f15)
    ensures Choice2(Turned(p, 7)) == Pair(0x00152e06, 0x1b120213)
    ensures Choice2(Turned(p, 8)) == Pair(0x38380e01, 0x15201b16)
  {
    assert Turned(p, 5) == Pair(0x0ccaa0f0, 0x0ccf00aa);
    assert Turned(p, 6) == Pair(0x032a83c3, 0x033c02ab);
    assert Turned(p, 7) == Pair(0x0caa0f0c, 0x0cf00aac);
    assert Turned(p, 8) == Pair(0x02a83c33, 0x03c02ab3);
  }

  lemma Keys3(p: Pair)
    requires Turned(p, 8) == Pair(0x02a83c33, 0x03c02ab3)
    ensures Turned(p, 12) == Pair(0x041e1995, 0x0015599e)
    ensures Choice2(Turned(p, 9)) == Pair(0x0c292b39, 0x30270920)
    ensures Choice2(Turned(p, 10)) == Pair(0x1e073132, 0x240c1835)
    ensures Choice2(Turned(p, 11)) == Pair(0x1103183a, 0x083e0324)
    ensures Choice2(Turned(p, 12)) == Pair(0x13251514, 0x1c031131)
  {
    assert Turned(p, 9) == Pair(0x05507866, 0x07805566);
    assert Turned(p, 10) == Pair(0x0541e199, 0x0e015599);
    assert Turned(p, 11) == Pair(0x05078665, 0x08055667);
    assert Turned(p, 12) == Pair(0x041e1995, 0x0015599e);
  }

  lemma Keys4(p: Pair)
    requires Turned(p, 12) == Pair(0x041e1995, 0x0015599e)
    ensures Turned(p, 16) == Pair(0x0f0ccaa0, 0x0aaccf00)
    ensures Choice2(Turned(p, 13)) == Pair(0x1c10183c, 0x24131203)
    ensures Choice2(Turned(p, 14)) == Pair(0x04361d0d, 0x150e2032)
    ensures Choice2(Turned(p, 15)) == Pair(0x29052135, 0x2d04021a)
    ensures Choice2(Turned(p, 16)) == Pair(0x23030732, 0x32342e00)
  {
    assert Turned(p, 13) == Pair(0x00786655, 0x00556678);
    assert Turned(p, 14) == Pair(0x01e19954, 0x015599e0);
    assert Turned(p, 15) == Pair(0x07866550, 0x05566780);
    assert Turned(p, 16) == Pair(0x0f0ccaa0, 0x0aaccf00);
  }

  lemma MixIs(sb: Boxes, k: Pair, x: bv32)
    ensures var t, u := First(k, x), Second(k, x);
            Mix(sb, k, x) == Joined(sb.sb8(Six(t, 0)), sb.sb6(Six(t, 8)), sb.sb4(Six(t, 16)), sb.sb2(Six(t, 24)),
                                    sb.sb7(Six(u, 0)), sb.sb5(Six(u, 8)), sb.sb3(Six(u, 16)), sb.sb1(Six(u, 24)))
  {
    hide Joined, Six, First, Second;
  }

  lemma Mixed(sb: Boxes, k: Pair, x: bv32, a: bv32, b: bv32, c: bv32, d: bv32, e: bv32, f: bv32, g: bv32, h: bv32)
    requires var t := First(k, x);
             sb.sb8(Six(t, 0)) == a && sb.sb6(Six(t, 8)) == b && sb.sb4(Six(t, 16)) == c && sb.sb2(Six(t, 24)) == d
    requires var u := Second(k, x);
             sb.sb7(Six(u, 0)) == e && sb.sb5(Six(u, 8)) == f && sb.sb3(Six(u, 16)) == g && sb.sb1(Six(u, 24)) == h
    ensures Mix(sb, k, x) == Joined(a, b, c, d, e, f, g, h)
  {
    hide Six, Joined, Mix, First, Second;
    MixIs(sb, k, x);
  }

  lemma BoxesAre(i: bv6)
    ensures BOXES.sb1(i) == SB1(i) && BOXES.sb2(i) == SB2(i) && BOXES.sb3(i) == SB3(i) && BOXES.sb4(i) == SB4(i)
    ensures BOXES.sb5(i) == SB5(i) && BOXES.sb6(i) == SB6(i) && BOXES.sb7(i) == SB7(i) && BOXES.sb8(i) == SB8(i)
  {
    hide SB1, SB2, SB3, SB4, SB5, SB6, SB7, SB8;
  }

  lemma RoundOf(sb: Boxes, k: Pair, p: Pair, m: bv32)
    requires Mix(sb, k, p.x) == m
    ensures Round(sb, k, p) == Pair(p.y ^ m, p.x)
  {
    hide Mix;
  }

  /** A round with the eight values that its S-boxes give. */
  lemma OneRound(k: Pair, p: Pair, t: bv32, u: bv32, a: bv32, b: bv32, c: bv32, d: bv32, e: bv32, f: bv32, g: bv32, h: bv32)
    requires First(k, p.x) == t && Second(k, p.x) == u
    requires SB8(Six(t, 0)) == a && SB6(Six(t, 8)) == b && SB4(Six(t, 16)) == c && SB2(Six(t, 24)) == d
    requires SB7(Six(u, 0)) == e && SB5(Six(u, 8)) == f && SB3(Six(u, 16)) == g && SB1(Six(u, 24)) == h
    ensures Round(BOXES, k, p) == Pair(p.y ^ Joined(a, b, c, d, e, f, g, h), p.x)
  {
    hide SB1, SB2, SB3, SB4, SB5, SB6, SB7, SB8, Six, Joined, Mix, Round, First, Second;
    BoxesAre(Six(t, 0));
    BoxesAre(Six(t, 8));
    BoxesAre(Six(t, 16));
    BoxesAre(Six(t, 24));
    BoxesAre(Six(u, 0));
    BoxesAre(Six(u, 8));
    BoxesAre(Six(u, 16));
    BoxesAre(Six(u, 24));
    Mixed(BOXES, k, p.x, a, b, c, d, e, f, g, h);
    RoundOf(BOXES, k, p, Joined(a, b, c, d, e, f, g, h));
  }

  lemma Even1()
    ensures SB8(43) == 0x10040000 && SB6(18) == 0x20004010 && SB4(27) == 0x00800080 && SB2(49) == 0x80108000
  {
  }

  lemma Odd1()
    ensures SB7(2) == 0x04000802 && SB5(36) == 0x40000000 && SB3(22) == 0x08020008 && SB1(34) == 0x00000004
  {
  }

  lemma Round1()
    ensures Round(BOXES, Pair(0x30273425, 0x02092626), Pair(0x01fc264e, 0x6f490e6d)) == Pair(0x93dfc6f3, 0x01fc264e)
  {
    hide SB1, SB2, SB3, SB4, SB5, SB6, SB7, SB8;
    Even1();
    Odd1();
    OneRound(Pair(0x30273425, 0x02092626), Pair(0x01fc264e, 0x6f490e6d), 0x31db126b, 0xe216e442,
             0x10040000, 0x20004010, 0x00800080, 0x80108000, 0x04000802, 0x40000000, 0x08020008, 0x00000004);
  }

  lemma Even2()
    ensures SB8(21) == 0x00040040 && SB6(16) == 0x00000000 && SB4(6) == 0x00800001 && SB2(9) == 0x80108020
  {
  }

  lemma Odd2()
    ensures SB7(7) == 0x04200800 && SB5(53) == 0x00000000 && SB3(36) == 0x00020000 && SB1(35) == 0x01010000
  {
  }

  lemma Round2()
    ensures Round(BOXES, Pair(0x1a191626, 0x1a190928), Pair(0x93dfc6f3, 0x01fc264e)) == Pair(0x844bae2f, 0x93dfc6f3)
  {
    hide SB1, SB2, SB3, SB4, SB5, SB6, SB7, SB8;
    Even2();
    Odd2();
    OneRound(Pair(0x1a191626, 0x1a190928), Pair(0x93dfc6f3, 0x01fc264e), 0x89c6d0d5, 0x2324f547,
             0x00040040, 0x00000000, 0x00800001, 0x80108020, 0x04200800, 0x00000000, 0x00020000, 0x01010000);
  }

  lemma Even3()
    ensures SB8(61) == 0x00040040 && SB6(44) == 0x20000010 && SB4(1) == 0x00002081 && SB2(25) == 0x80000020
  {
  }

  lemma Odd3()
    ensures SB7(1) == 0x04200002 && SB5(23) == 0x02000100 && SB3(22) == 0x08020008 && SB1(41) == 0x00010000
  {
  }

  lemma Round3()
    ensures Round(BOXES, Pair(0x1d0a0212, 0x11122d23), Pair(0x844bae2f, 0x93dfc6f3)) == Pair(0x3df8e708, 0x844bae2f)
  {
    hide SB1, SB2, SB3, SB4, SB5, SB6, SB7, SB8;
    Even3();
    Odd3();
    OneRound(Pair(0x1d0a0212, 0x11122d23), Pair(0x844bae2f, 0x93dfc6f3), 0x9941ac3d, 0xe95697c1,
             0x00040040, 0x20000010, 0x00002081, 0x80000020, 0x04200002, 0x02000100, 0x08020008, 0x00010000);
  }

  lemma Even4()
    ensures SB8(31) == 0x00040000 && SB6(63) == 0x20004010 && SB4(42) == 0x00800081 && SB2(21) == 0x00008000
  {
  }

  lemma Odd4()
    ensures SB7(57) == 0x00200802 && SB5(39) == 0x40080100 && SB3(56) == 0x08020000 && SB1(31) == 0x01000000
  {
  }

  lemma Round4()
    ensures Round(BOXES, Pair(0x28121817, 0x1c272909), Pair(0x3df8e708, 0x844bae2f)) == Pair(0xede567bc, 0x3df8e708)
  {
    hide SB1, SB2, SB3, SB4, SB5, SB6, SB7, SB8;
    Even4();
    Odd4();
    OneRound(Pair(0x28121817, 0x1c272909), Pair(0x3df8e708, 0x844bae2f), 0x15eaff1f, 0x9ff8a779,
             0x00040000, 0x20004010, 0x00800081, 0x00008000, 0x00200802, 0x40080100, 0x08020000, 0x01000000);
  }

  lemma Even5()
    ensures SB8(62) == 0x10000000 && SB6(29) == 0x00404000 && SB4(38) == 0x00000000 && SB2(35) == 0x00100000
  {
  }

  lemma Odd5()
    ensures SB7(32) == 0x04000000 && SB5(19) == 0x00000000 && SB3(62) == 0x08020008 && SB1(1) == 0x00000000
  {
  }

  lemma Round5()
    ensures Round(BOXES, Pair(0x0e033a02, 0x0f20051b), Pair(0xede567bc, 0x3df8e708)) == Pair(0x21aaa700, 0xede567bc)
  {
    hide SB1, SB2, SB3, SB4, SB5, SB6, SB7, SB8;
    Even5();
    Odd5();
    OneRound(Pair(0x0e033a02, 0x0f20051b), Pair(0xede567bc, 0x3df8e708), 0xe3e65dbe, 0xc1fe5360,
             0x10000000, 0x00404000, 0x00000000, 0x00100000, 0x04000000, 0x00000000, 0x08020008, 0x00000000);
  }

  lemma Even6()
    ensures SB8(5) == 0x10001040 && SB6(47) == 0x20400000 && SB4(52) == 0x00800001 && SB2(19) == 0x00000000
  {
  }

  lemma Odd6()
    ensures SB7(37) == 0x04200002 && SB5(37) == 0x02080000 && SB3(14) == 0x08020000 && SB1(10) == 0x01010404
  {
  }

  lemma Round6()
    ensures Round(BOXES, Pair(0x321e0805, 0x08140f15), Pair(0x21aaa700, 0xede567bc)) == Pair(0xd20e73fb, 0x21aaa700)
  {
    hide SB1, SB2, SB3, SB4, SB5, SB6, SB7, SB8;
    Even6();
    Odd6();
    OneRound(Pair(0x321e0805, 0x08140f15), Pair(0x21aaa700, 0xede567bc), 0x13b4af05, 0x0a0ea565,
             0x10001040, 0x20400000, 0x00800001, 0x00000000, 0x04200002, 0x02080000, 0x08020000, 0x01010404);
  }

  lemma Even7()
    ensures SB8(61) == 0x00040040 && SB6(29) == 0x00404000 && SB4(27) == 0x00800080 && SB2(18) == 0x80008020
  {
  }

  lemma Odd7()
    ensures SB7(44) == 0x04200800 && SB5(37) == 0x02080000 && SB3(50) == 0x08000000 && SB1(38) == 0x01000000
  {
  }

  lemma Round7()
    ensures Round(BOXES, Pair(0x00152e06, 0x1b120213), Pair(0xd20e73fb, 0x21aaa700)) == Pair(0xae466fe0, 0xd20e73fb)
  {
    hide SB1, SB2, SB3, SB4, SB5, SB6, SB7, SB8;
    Even7();
    Odd7();
    OneRound(Pair(0x00152e06, 0x1b120213), Pair(0xd20e73fb, 0x21aaa700), 0xd21b5dfd, 0xa632e52c,
             0x00040040, 0x00404000, 0x00800080, 0x80008020, 0x04200800, 0x02080000, 0x08000000, 0x01000000);
  }

  lemma Even8()
    ensures SB8(33) == 0x00040000 && SB6(33) == 0x00000010 && SB4(62) == 0x00002000 && SB2(22) == 0x00108020
  {
  }

  lemma Odd8()
    ensures SB7(40) == 0x00200002 && SB5(61) == 0x40080000 && SB3(4) == 0x08000200 && SB1(31) == 0x01000000
  {
  }

  lemma Round8()
    ensures Round(BOXES, Pair(0x38380e01, 0x15201b16), Pair(0xae466fe0, 0xd20e73fb)) == Pair(0x9b32d1c9, 0xae466fe0)
  {
    hide SB1, SB2, SB3, SB4, SB5, SB6, SB7, SB8;
    Even8();
    Odd8();
    OneRound(Pair(0x38380e01, 0x15201b16), Pair(0xae466fe0, 0xd20e73fb), 0x967e61e1, 0x1fc47de8,
             0x00040000, 0x00000010, 0x00002000, 0x00108020, 0x00200002, 0x40080000, 0x08000200, 0x01000000);
  }

  lemma Even9()
    ensures SB8(48) == 0x00000000 && SB6(58) == 0x20004010 && SB4(27) == 0x00800080 && SB2(23) == 0x80100000
  {
  }

  lemma Odd9()
    ensures SB7(60) == 0x04000002 && SB5(36) == 0x40000000 && SB3(20) == 0x00020200 && SB1(41) == 0x00010000
  {
  }

  lemma Round9()
    ensures Round(BOXES, Pair(0x0c292b39, 0x30270920), Pair(0x9b32d1c9, 0xae466fe0)) == Pair(0x4ad52d72, 0x9b32d1c9)
  {
    hide SB1, SB2, SB3, SB4, SB5, SB6, SB7, SB8;
    Even9();
    Odd9();
    OneRound(Pair(0x0c292b39, 0x30270920), Pair(0x9b32d1c9, 0xae466fe0), 0x971bfaf0, 0xa994243c,
             0x00000000, 0x20004010, 0x00800080, 0x80100000, 0x04000002, 0x40000000, 0x00020200, 0x00010000);
  }

  lemma Even10()
    ensures SB8(0) == 0x10001040 && SB6(28) == 0x00004010 && SB4(18) == 0x00800000 && SB2(20) == 0x80000000
  {
  }

  lemma Odd10()
    ensures SB7(34) == 0x00200000 && SB5(10) == 0x02000100 && SB3(33) == 0x08000000 && SB1(0) == 0x01010400
  {
  }

  lemma Round10()
    ensures Round(BOXES, Pair(0x1e073132, 0x240c1835), Pair(0x4ad52d72, 0x9b32d1c9)) == Pair(0x00938499, 0x4ad52d72)
  {
    hide SB1, SB2, SB3, SB4, SB5, SB6, SB7, SB8;
    Even10();
    Odd10();
    OneRound(Pair(0x1e073132, 0x240c1835), Pair(0x4ad52d72, 0x9b32d1c9), 0x54d21c40, 0x00a14ae2,
             0x10001040, 0x00004010, 0x00800000, 0x80000000, 0x00200000, 0x02000100, 0x08000000, 0x01010400);
  }

  lemma Even11()
    ensures SB8(35) == 0x00001000 && SB6(28) == 0x00004010 && SB4(16) == 0x00000001 && SB2(17) == 0x00100020
  {
  }

  lemma Odd11()
    ensures SB7(45) == 0x00000802 && SB5(59) == 0x00080000 && SB3(55) == 0x08000008 && SB1(24) == 0x00010004
  {
  }

  lemma Round11()
    ensures Round(BOXES, Pair(0x1103183a, 0x083e0324), Pair(0x00938499, 0x4ad52d72)) == Pair(0x42cc754d, 0x00938499)
  {
    hide SB1, SB2, SB3, SB4, SB5, SB6, SB7, SB8;
    Even11();
    Odd11();
    OneRound(Pair(0x1103183a, 0x083e0324), Pair(0x00938499, 0x4ad52d72), 0x11909ca3, 0x98373b6d,
             0x00001000, 0x00004010, 0x00000001, 0x00100020, 0x00000802, 0x00080000, 0x08000008, 0x00010004);
  }

  lemma Even12()
    ensures SB8(25) == 0x00000000 && SB6(32) == 0x20004000 && SB4(41) == 0x00800080 && SB2(17) == 0x00100020
  {
  }

  lemma Odd12()
    ensures SB7(37) == 0x04200002 && SB5(22) == 0x42080100 && SB3(47) == 0x08020008 && SB1(8) == 0x00000400
  {
  }

  lemma Round12()
    ensures Round(BOXES, Pair(0x13251514, 0x1c031131), Pair(0x42cc754d, 0x00938499)) == Pair(0x6e29c133, 0x42cc754d)
  {
    hide SB1, SB2, SB3, SB4, SB5, SB6, SB7, SB8;
    Even12();
    Odd12();
    OneRound(Pair(0x13251514, 0x1c031131), Pair(0x42cc754d, 0x00938499), 0x51e96059, 0xc82fd665,
             0x00000000, 0x20004000, 0x00800080, 0x00100020, 0x04200002, 0x42080100, 0x08020008, 0x00000400);
  }

  lemma Even13()
    ensures SB8(15) == 0x00000040 && SB6(25) == 0x00000000 && SB4(57) == 0x00002080 && SB2(50) == 0x00100000
  {
  }

  lemma Odd13()
    ensures SB7(16) == 0x04000800 && SB5(14) == 0x00080100 && SB3(49) == 0x00020000 && SB1(18) == 0x01000400
  {
  }

  lemma Round13()
    ensures Round(BOXES, Pair(0x1c10183c, 0x24131203), Pair(0x6e29c133, 0x42cc754d)) == Pair(0x47d6588d, 0x6e29c133)
  {
    hide SB1, SB2, SB3, SB4, SB5, SB6, SB7, SB8;
    Even13();
    Odd13();
    OneRound(Pair(0x1c10183c, 0x24131203), Pair(0x6e29c133, 0x42cc754d), 0x7239d90f, 0x12f18e10,
             0x00000040, 0x00000000, 0x00002080, 0x00100000, 0x04000800, 0x00080100, 0x00020000, 0x01000400);
  }

  lemma Even14()
    ensures SB8(0) == 0x10001040 && SB6(5) == 0x00000010 && SB4(32) == 0x00800080 && SB2(3) == 0x00108020
  {
  }

  lemma Odd14()
    ensures SB7(58) == 0x04200000 && SB5(5) == 0x00000100 && SB3(51) == 0x08020208 && SB1(1) == 0x00000000
  {
  }

  lemma Round14()
    ensures Round(BOXES, Pair(0x04361d0d, 0x150e2032), Pair(0x47d6588d, 0x6e29c133)) == Pair(0x729b52cb, 0x47d6588d)
  {
    hide SB1, SB2, SB3, SB4, SB5, SB6, SB7, SB8;
    Even14();
    Odd14();
    OneRound(Pair(0x04361d0d, 0x150e2032), Pair(0x47d6588d, 0x6e29c133), 0x43e04580, 0xc17345ba,
             0x10001040, 0x00000010, 0x00800080, 0x00108020, 0x04200000, 0x00000100, 0x08020208, 0x00000000);
  }

  lemma Even15()
    ensures SB8(62) == 0x10000000 && SB6(51) == 0x20400010 && SB4(30) == 0x00802081 && SB2(27) == 0x00108000
  {
  }

  lemma Odd15()
    ensures SB7(54) == 0x00000002 && SB5(55) == 0x42000000 && SB3(45) == 0x00000200 && SB1(26) == 0x01000004
  {
  }

  lemma Round15()
    ensures Round(BOXES, Pair(0x29052135, 0x2d04021a), Pair(0x729b52cb, 0x47d6588d)) == Pair(0x3406fa1a, 0x729b52cb)
  {
    hide SB1, SB2, SB3, SB4, SB5, SB6, SB7, SB8;
    Even15();
    Odd15();
    OneRound(Pair(0x29052135, 0x2d04021a), Pair(0x729b52cb, 0x47d6588d), 0x5b9e73fe, 0x9a2db736,
             0x10000000, 0x20400010, 0x00802081, 0x00108000, 0x00000002, 0x42000000, 0x00000200, 0x01000004);
  }

  lemma Even16()
    ensures SB8(40) == 0x10001000 && SB6(61) == 0x20000000 && SB4(5) == 0x00800081 && SB2(23) == 0x80100000
  {
  }

  lemma Odd16()
    ensures SB7(33) == 0x00200800 && SB5(1) == 0x02080100 && SB3(52) == 0x00000008 && SB1(17) == 0x01000400
  {
  }

  lemma Round16()
    ensures Round(BOXES, Pair(0x23030732, 0x32342e00), Pair(0x3406fa1a, 0x729b52cb)) == Pair(0xc1234f42, 0x3406fa1a)
  {
    hide SB1, SB2, SB3, SB4, SB5, SB6, SB7, SB8;
    Even16();
    Odd16();
    OneRound(Pair(0x23030732, 0x32342e00), Pair(0x3406fa1a, 0x729b52cb), 0x1705fd28, 0x917441a1,
             0x10001000, 0x20000000, 0x00800081, 0x80100000, 0x00200800, 0x02080100, 0x00000008, 0x01000400);
  }

  lemma KeysAre()
    ensures RoundKeys(Schedule(KEY)) == KEYS
  {
    hide Turned, Choice1, Choice2, Get32;
    Start();
    FromStart(Halves(KEY));
    var p := Halves(KEY);
    Keys1(p);
    Keys2(p);
    Keys3(p);
    Keys4(p);
    forall i | 0 <= i < 16 ensures RoundKeys(Schedule(KEY))[i] == Choice2(Turned(p, i + 1)) == KEYS[i] {
    }
  }

  lemma FromStart(p: Pair)
    ensures Turned(p, 0) == p
  {
  }

  lemma Permuted()
    ensures IP(Pair(Get32(TEXT[..4]), Get32(TEXT[4..]))) == Exchanged(Pair(0x01fc264e, 0x6f490e6d))
    ensures FP(Pair(0xc1234f42, 0x3406fa1a)) == Pair(0x3fa40e8a, 0x984d4815) && Put32(0x3fa40e8a) + Put32(0x984d4815) == CIPHER
  {
    assert TEXT[..4] == [0x4e, 0x6f, 0x77, 0x20] && TEXT[4..] == [0x69, 0x73, 0x20, 0x74];
    assert Get32(TEXT[..4]) == 0x4e6f7720 && Get32(TEXT[4..]) == 0x69732074;
    assert Put32(0x3fa40e8a) == [0x3f, 0xa4, 0x0e, 0x8a] && Put32(0x984d4815) == [0x98, 0x4d, 0x48, 0x15];
  }

  lemma Enciphered()
    ensures Feistel(BOXES, KEYS, Pair(0x01fc264e, 0x6f490e6d)) == Pair(0xc1234f42, 0x3406fa1a)
  {
    hide Round;
    Round1();
    Round2();
    Round3();
    Round4();
    Round5();
    Round6();
    Round7();
    Round8();
    Round9();
    Round10();
    Round11();
    Round12();
    Round13();
    Round14();
    Round15();
    Round16();
    Sixteen(BOXES, KEYS, Pair(0x01fc264e, 0x6f490e6d));
  }

  lemma Sixteen(sb: Boxes, keys: seq<Pair>, p: Pair)
    requires |keys| == 16
    ensures Feistel(sb, keys, p) == Four(sb, keys[12..], Four(sb, keys[8..], Four(sb, keys[4..], Four(sb, keys, p))))
  {
    hide Feistel, Four;
    FourFirst(sb, keys, p);
    FourFirst(sb, keys[4..], Four(sb, keys, p));
    FourFirst(sb, keys[8..], Four(sb, keys[4..], Four(sb, keys, p)));
    FourFirst(sb, keys[12..], Four(sb, keys[8..], Four(sb, keys[4..], Four(sb, keys, p))));
    assert keys[4..][4..] == keys[8..] && keys[8..][4..] == keys[12..] && keys[12..][4..] == [];
    NoRounds(sb, Four(sb, keys[12..], Four(sb, keys[8..], Four(sb, keys[4..], Four(sb, keys, p)))));
  }

  function Four(sb: Boxes, keys: seq<Pair>, p: Pair): Pair
    requires |keys| >= 4
  {
    Round(sb, keys[3], Round(sb, keys[2], Round(sb, keys[1], Round(sb, keys[0], p))))
  }

  lemma FourFirst(sb: Boxes, keys: seq<Pair>, p: Pair)
    requires |keys| >= 4
    ensures Feistel(sb, keys, p) == Feistel(sb, keys[4..], Four(sb, keys, p))
  {
    hide Round, Feistel;
    assert keys[0..] == keys;
    TwoRounds(sb, keys, 0, p);
    TwoRounds(sb, keys, 2, Round(sb, keys[1], Round(sb, keys[0], p)));
  }

  /** The block of the standard, both ways. */
  lemma BlockOfStandard()
    ensures Crypt(BOXES, Schedule(KEY), TEXT) == CIPHER
    ensures Crypt(BOXES, Backwards(Schedule(KEY)), CIPHER) == TEXT
  {
    hide Crypt, Schedule, RoundKeys, IP, FP, Get32, Put32, Feistel, Backwards;
    KeysAre();
    Permuted();
    Enciphered();
    CryptIs(BOXES, Schedule(KEY), TEXT);
    CryptUndoes(BOXES, Schedule(KEY), TEXT);
  }

  /** The text is encrypted to that block and one of padding. */
  lemma TextOfStandard()
    ensures |Encode(BOXES, Schedule(KEY), TEXT)| == 16 && Encode(BOXES, Schedule(KEY), TEXT)[..8] == CIPHER
  {
    hide Crypt, Schedule, Padded;
    PaddedBytes(TEXT);
    BlockOfStandard();
    assert TEXT[..8] == TEXT;
  }
}
