/** The key schedule and the S-boxes of DES (lualib/lcrypt.c). With them the cipher gives the ciphertext
    of the standard: Table B1 of FIPS 81, electronic codebook mode, first block.
 */
module DesKeys {
  import opened Basics
  import opened Des

  // -------------------------------------------------------------------- tables

  function SB1(i: bv6): bv32 {
    if i == 0 then 0x01010400 else if i == 1 then 0x00000000 else if i == 2 then 0x00010000 else if i == 3 then 0x01010404 else
    if i == 4 then 0x01010004 else if i == 5 then 0x00010404 else if i == 6 then 0x00000004 else if i == 7 then 0x00010000 else
    if i == 8 then 0x00000400 else if i == 9 then 0x01010400 else if i == 10 then 0x01010404 else if i == 11 then 0x00000400 else
    if i == 12 then 0x01000404 else if i == 13 then 0x01010004 else if i == 14 then 0x01000000 else if i == 15 then 0x00000004 else
    if i == 16 then 0x00000404 else if i == 17 then 0x01000400 else if i == 18 then 0x01000400 else if i == 19 then 0x00010400 else
    if i == 20 then 0x00010400 else if i == 21 then 0x01010000 else if i == 22 then 0x01010000 else if i == 23 then 0x01000404 else
    if i == 24 then 0x00010004 else if i == 25 then 0x01000004 else if i == 26 then 0x01000004 else if i == 27 then 0x00010004 else
    if i == 28 then 0x00000000 else if i == 29 then 0x00000404 else if i == 30 then 0x00010404 else if i == 31 then 0x01000000 else
    if i == 32 then 0x00010000 else if i == 33 then 0x01010404 else if i == 34 then 0x00000004 else if i == 35 then 0x01010000 else
    if i == 36 then 0x01010400 else if i == 37 then 0x01000000 else if i == 38 then 0x01000000 else if i == 39 then 0x00000400 else
    if i == 40 then 0x01010004 else if i == 41 then 0x00010000 else if i == 42 then 0x00010400 else if i == 43 then 0x01000004 else
    if i == 44 then 0x00000400 else if i == 45 then 0x00000004 else if i == 46 then 0x01000404 else if i == 47 then 0x00010404 else
    if i == 48 then 0x01010404 else if i == 49 then 0x00010004 else if i == 50 then 0x01010000 else if i == 51 then 0x01000404 else
    if i == 52 then 0x01000004 else if i == 53 then 0x00000404 else if i == 54 then 0x00010404 else if i == 55 then 0x01010400 else
    if i == 56 then 0x00000404 else if i == 57 then 0x01000400 else if i == 58 then 0x01000400 else if i == 59 then 0x00000000 else
    if i == 60 then 0x00010004 else if i == 61 then 0x00010400 else if i == 62 then 0x00000000 else 0x01010004
  }

  function SB2(i: bv6): bv32 {
    if i == 0 then 0x80108020 else if i == 1 then 0x80008000 else if i == 2 then 0x00008000 else if i == 3 then 0x00108020 else
    if i == 4 then 0x00100000 else if i == 5 then 0x00000020 else if i == 6 then 0x80100020 else if i == 7 then 0x80008020 else
    if i == 8 then 0x80000020 else if i == 9 then 0x80108020 else if i == 10 then 0x80108000 else if i == 11 then 0x80000000 else
    if i == 12 then 0x80008000 else if i == 13 then 0x00100000 else if i == 14 then 0x00000020 else if i == 15 then 0x80100020 else
    if i == 16 then 0x00108000 else if i == 17 then 0x00100020 else if i == 18 then 0x80008020 else if i == 19 then 0x00000000 else
    if i == 20 then 0x80000000 else if i == 21 then 0x00008000 else if i == 22 then 0x00108020 else if i == 23 then 0x80100000 else
    if i == 24 then 0x00100020 else if i == 25 then 0x80000020 else if i == 26 then 0x00000000 else if i == 27 then 0x00108000 else
    if i == 28 then 0x00008020 else if i == 29 then 0x80108000 else if i == 30 then 0x80100000 else if i == 31 then 0x00008020 else
    if i == 32 then 0x00000000 else if i == 33 then 0x00108020 else if i == 34 then 0x80100020 else if i == 35 then 0x00100000 else
    if i == 36 then 0x80008020 else if i == 37 then 0x80100000 else if i == 38 then 0x80108000 else if i == 39 then 0x00008000 else
    if i == 40 then 0x80100000 else if i == 41 then 0x80008000 else if i == 42 then 0x00000020 else if i == 43 then 0x80108020 else
    if i == 44 then 0x00108020 else if i == 45 then 0x00000020 else if i == 46 then 0x00008000 else if i == 47 then 0x80000000 else
    if i == 48 then 0x00008020 else if i == 49 then 0x80108000 else if i == 50 then 0x00100000 else if i == 51 then 0x80000020 else
    if i == 52 then 0x00100020 else if i == 53 then 0x80008020 else if i == 54 then 0x80000020 else if i == 55 then 0x00100020 else
    if i == 56 then 0x00108000 else if i == 57 then 0x00000000 else if i == 58 then 0x80008000 else if i == 59 then 0x00008020 else
    if i == 60 then 0x80000000 else if i == 61 then 0x80100020 else if i == 62 then 0x80108020 else 0x00108000
  }

  function SB3(i: bv6): bv32 {
    if i == 0 then 0x00000208 else if i == 1 then 0x08020200 else if i == 2 then 0x00000000 else if i == 3 then 0x08020008 else
    if i == 4 then 0x08000200 else if i == 5 then 0x00000000 else if i == 6 then 0x00020208 else if i == 7 then 0x08000200 else
    if i == 8 then 0x00020008 else if i == 9 then 0x08000008 else if i == 10 then 0x08000008 else if i == 11 then 0x00020000 else
    if i == 12 then 0x08020208 else if i == 13 then 0x00020008 else if i == 14 then 0x08020000 else if i == 15 then 0x00000208 else
    if i == 16 then 0x08000000 else if i == 17 then 0x00000008 else if i == 18 then 0x08020200 else if i == 19 then 0x00000200 else
    if i == 20 then 0x00020200 else if i == 21 then 0x08020000 else if i == 22 then 0x08020008 else if i == 23 then 0x00020208 else
    if i == 24 then 0x08000208 else if i == 25 then 0x00020200 else if i == 26 then 0x00020000 else if i == 27 then 0x08000208 else
    if i == 28 then 0x00000008 else if i == 29 then 0x08020208 else if i == 30 then 0x00000200 else if i == 31 then 0x08000000 else
    if i == 32 then 0x08020200 else if i == 33 then 0x08000000 else if i == 34 then 0x00020008 else if i == 35 then 0x00000208 else
    if i == 36 then 0x00020000 else if i == 37 then 0x08020200 else if i == 38 then 0x08000200 else if i == 39 then 0x00000000 else
    if i == 40 then 0x00000200 else if i == 41 then 0x00020008 else if i == 42 then 0x08020208 else if i == 43 then 0x08000200 else
    if i == 44 then 0x08000008 else if i == 45 then 0x00000200 else if i == 46 then 0x00000000 else if i == 47 then 0x08020008 else
    if i == 48 then 0x08000208 else if i == 49 then 0x00020000 else if i == 50 then 0x08000000 else if i == 51 then 0x08020208 else
    if i == 52 then 0x00000008 else if i == 53 then 0x00020208 else if i == 54 then 0x00020200 else if i == 55 then 0x08000008 else
    if i == 56 then 0x08020000 else if i == 57 then 0x08000208 else if i == 58 then 0x00000208 else if i == 59 then 0x08020000 else
    if i == 60 then 0x00020208 else if i == 61 then 0x00000008 else if i == 62 then 0x08020008 else 0x00020200
  }

  function SB4(i: bv6): bv32 {
    if i == 0 then 0x00802001 else if i == 1 then 0x00002081 else if i == 2 then 0x00002081 else if i == 3 then 0x00000080 else
    if i == 4 then 0x00802080 else if i == 5 then 0x00800081 else if i == 6 then 0x00800001 else if i == 7 then 0x00002001 else
    if i == 8 then 0x00000000 else if i == 9 then 0x00802000 else if i == 10 then 0x00802000 else if i == 11 then 0x00802081 else
    if i == 12 then 0x00000081 else if i == 13 then 0x00000000 else if i == 14 then 0x00800080 else if i == 15 then 0x00800001 else
    if i == 16 then 0x00000001 else if i == 17 then 0x00002000 else if i == 18 then 0x00800000 else if i == 19 then 0x00802001 else
    if i == 20 then 0x00000080 else if i == 21 then 0x00800000 else if i == 22 then 0x00002001 else if i == 23 then 0x00002080 else
    if i == 24 then 0x00800081 else if i == 25 then 0x00000001 else if i == 26 then 0x00002080 else if i == 27 then 0x00800080 else
    if i == 28 then 0x00002000 else if i == 29 then 0x00802080 else if i == 30 then 0x00802081 else if i == 31 then 0x00000081 else
    if i == 32 then 0x00800080 else if i == 33 then 0x00800001 else if i == 34 then 0x00802000 else if i == 35 then 0x00802081 else
    if i == 36 then 0x00000081 else if i == 37 then 0x00000000 else if i == 38 then 0x00000000 else if i == 39 then 0x00802000 else
    if i == 40 then 0x00002080 else if i == 41 then 0x00800080 else if i == 42 then 0x00800081 else if i == 43 then 0x00000001 else
    if i == 44 then 0x00802001 else if i == 45 then 0x00002081 else if i == 46 then 0x00002081 else if i == 47 then 0x00000080 else
    if i == 48 then 0x00802081 else if i == 49 then 0x00000081 else if i == 50 then 0x00000001 else if i == 51 then 0x00002000 else
    if i == 52 then 0x00800001 else if i == 53 then 0x00002001 else if i == 54 then 0x00802080 else if i == 55 then 0x00800081 else
    if i == 56 then 0x00002001 else if i == 57 then 0x00002080 else if i == 58 then 0x00800000 else if i == 59 then 0x00802001 else
    if i == 60 then 0x00000080 else if i == 61 then 0x00800000 else if i == 62 then 0x00002000 else 0x00802080
  }

  function SB5(i: bv6): bv32 {
    if i == 0 then 0x00000100 else if i == 1 then 0x02080100 else if i == 2 then 0x02080000 else if i == 3 then 0x42000100 else
    if i == 4 then 0x00080000 else if i == 5 then 0x00000100 else if i == 6 then 0x40000000 else if i == 7 then 0x02080000 else
    if i == 8 then 0x40080100 else if i == 9 then 0x00080000 else if i == 10 then 0x02000100 else if i == 11 then 0x40080100 else
    if i == 12 then 0x42000100 else if i == 13 then 0x42080000 else if i == 14 then 0x00080100 else if i == 15 then 0x40000000 else
    if i == 16 then 0x02000000 else if i == 17 then 0x40080000 else if i == 18 then 0x40080000 else if i == 19 then 0x00000000 else
    if i == 20 then 0x40000100 else if i == 21 then 0x42080100 else if i == 22 then 0x42080100 else if i == 23 then 0x02000100 else
    if i == 24 then 0x42080000 else if i == 25 then 0x40000100 else if i == 26 then 0x00000000 else if i == 27 then 0x42000000 else
    if i == 28 then 0x02080100 else if i == 29 then 0x02000000 else if i == 30 then 0x42000000 else if i == 31 then 0x00080100 else
    if i == 32 then 0x00080000 else if i == 33 then 0x42000100 else if i == 34 then 0x00000100 else if i == 35 then 0x02000000 else
    if i == 36 then 0x40000000 else if i == 37 then 0x02080000 else if i == 38 then 0x42000100 else if i == 39 then 0x40080100 else
    if i == 40 then 0x02000100 else if i == 41 then 0x40000000 else if i == 42 then 0x42080000 else if i == 43 then 0x02080100 else
    if i == 44 then 0x40080100 else if i == 45 then 0x00000100 else if i == 46 then 0x02000000 else if i == 47 then 0x42080000 else
    if i == 48 then 0x42080100 else if i == 49 then 0x00080100 else if i == 50 then 0x42000000 else if i == 51 then 0x42080100 else
    if i == 52 then 0x02080000 else if i == 53 then 0x00000000 else if i == 54 then 0x40080000 else if i == 55 then 0x42000000 else
    if i == 56 then 0x00080100 else if i == 57 then 0x02000100 else if i == 58 then 0x40000100 else if i == 59 then 0x00080000 else
    if i == 60 then 0x00000000 else if i == 61 then 0x40080000 else if i == 62 then 0x02080100 else 0x40000100
  }

  function SB6(i: bv6): bv32 {
    if i == 0 then 0x20000010 else if i == 1 then 0x20400000 else if i == 2 then 0x00004000 else if i == 3 then 0x20404010 else
    if i == 4 then 0x20400000 else if i == 5 then 0x00000010 else if i == 6 then 0x20404010 else if i == 7 then 0x00400000 else
    if i == 8 then 0x20004000 else if i == 9 then 0x00404010 else if i == 10 then 0x00400000 else if i == 11 then 0x20000010 else
    if i == 12 then 0x00400010 else if i == 13 then 0x20004000 else if i == 14 then 0x20000000 else if i == 15 then 0x00004010 else
    if i == 16 then 0x00000000 else if i == 17 then 0x00400010 else if i == 18 then 0x20004010 else if i == 19 then 0x00004000 else
    if i == 20 then 0x00404000 else if i == 21 then 0x20004010 else if i == 22 then 0x00000010 else if i == 23 then 0x20400010 else
    if i == 24 then 0x20400010 else if i == 25 then 0x00000000 else if i == 26 then 0x00404010 else if i == 27 then 0x20404000 else
    if i == 28 then 0x00004010 else if i == 29 then 0x00404000 else if i == 30 then 0x20404000 else if i == 31 then 0x20000000 else
    if i == 32 then 0x20004000 else if i == 33 then 0x00000010 else if i == 34 then 0x20400010 else if i == 35 then 0x00404000 else
    if i == 36 then 0x20404010 else if i == 37 then 0x00400000 else if i == 38 then 0x00004010 else if i == 39 then 0x20000010 else
    if i == 40 then 0x00400000 else if i == 41 then 0x20004000 else if i == 42 then 0x20000000 else if i == 43 then 0x00004010 else
    if i == 44 then 0x20000010 else if i == 45 then 0x20404010 else if i == 46 then 0x00404000 else if i == 47 then 0x20400000 else
    if i == 48 then 0x00404010 else if i == 49 then 0x20404000 else if i == 50 then 0x00000000 else if i == 51 then 0x20400010 else
    if i == 52 then 0x00000010 else if i == 53 then 0x00004000 else if i == 54 then 0x20400000 else if i == 55 then 0x00404010 else
    if i == 56 then 0x00004000 else if i == 57 then 0x00400010 else if i == 58 then 0x20004010 else if i == 59 then 0x00000000 else
    if i == 60 then 0x20404000 else if i == 61 then 0x20000000 else if i == 62 then 0x00400010 else 0x20004010
  }

  function SB7(i: bv6): bv32 {
    if i == 0 then 0x00200000 else if i == 1 then 0x04200002 else if i == 2 then 0x04000802 else if i == 3 then 0x00000000 else
    if i == 4 then 0x00000800 else if i == 5 then 0x04000802 else if i == 6 then 0x00200802 else if i == 7 then 0x04200800 else
    if i == 8 then 0x04200802 else if i == 9 then 0x00200000 else if i == 10 then 0x00000000 else if i == 11 then 0x04000002 else
    if i == 12 then 0x00000002 else if i == 13 then 0x04000000 else if i == 14 then 0x04200002 else if i == 15 then 0x00000802 else
    if i == 16 then 0x04000800 else if i == 17 then 0x00200802 else if i == 18 then 0x00200002 else if i == 19 then 0x04000800 else
    if i == 20 then 0x04000002 else if i == 21 then 0x04200000 else if i == 22 then 0x04200800 else if i == 23 then 0x00200002 else
    if i == 24 then 0x04200000 else if i == 25 then 0x00000800 else if i == 26 then 0x00000802 else if i == 27 then 0x04200802 else
    if i == 28 then 0x00200800 else if i == 29 then 0x00000002 else if i == 30 then 0x04000000 else if i == 31 then 0x00200800 else
    if i == 32 then 0x04000000 else if i == 33 then 0x00200800 else if i == 34 then 0x00200000 else if i == 35 then 0x04000802 else
    if i == 36 then 0x04000802 else if i == 37 then 0x04200002 else if i == 38 then 0x04200002 else if i == 39 then 0x00000002 else
    if i == 40 then 0x00200002 else if i == 41 then 0x04000000 else if i == 42 then 0x04000800 else if i == 43 then 0x00200000 else
    if i == 44 then 0x04200800 else if i == 45 then 0x00000802 else if i == 46 then 0x00200802 else if i == 47 then 0x04200800 else
    if i == 48 then 0x00000802 else if i == 49 then 0x04000002 else if i == 50 then 0x04200802 else if i == 51 then 0x04200000 else
    if i == 52 then 0x00200800 else if i == 53 then 0x00000000 else if i == 54 then 0x00000002 else if i == 55 then 0x04200802 else
    if i == 56 then 0x00000000 else if i == 57 then 0x00200802 else if i == 58 then 0x04200000 else if i == 59 then 0x00000800 else
    if i == 60 then 0x04000002 else if i == 61 then 0x04000800 else if i == 62 then 0x00000800 else 0x00200002
  }

  function SB8(i: bv6): bv32 {
    if i == 0 then 0x10001040 else if i == 1 then 0x00001000 else if i == 2 then 0x00040000 else if i == 3 then 0x10041040 else
    if i == 4 then 0x10000000 else if i == 5 then 0x10001040 else if i == 6 then 0x00000040 else if i == 7 then 0x10000000 else
    if i == 8 then 0x00040040 else if i == 9 then 0x10040000 else if i == 10 then 0x10041040 else if i == 11 then 0x00041000 else
    if i == 12 then 0x10041000 else if i == 13 then 0x00041040 else if i == 14 then 0x00001000 else if i == 15 then 0x00000040 else
    if i == 16 then 0x10040000 else if i == 17 then 0x10000040 else if i == 18 then 0x10001000 else if i == 19 then 0x00001040 else
    if i == 20 then 0x00041000 else if i == 21 then 0x00040040 else if i == 22 then 0x10040040 else if i == 23 then 0x10041000 else
    if i == 24 then 0x00001040 else if i == 25 then 0x00000000 else if i == 26 then 0x00000000 else if i == 27 then 0x10040040 else
    if i == 28 then 0x10000040 else if i == 29 then 0x10001000 else if i == 30 then 0x00041040 else if i == 31 then 0x00040000 else
    if i == 32 then 0x00041040 else if i == 33 then 0x00040000 else if i == 34 then 0x10041000 else if i == 35 then 0x00001000 else
    if i == 36 then 0x00000040 else if i == 37 then 0x10040040 else if i == 38 then 0x00001000 else if i == 39 then 0x00041040 else
    if i == 40 then 0x10001000 else if i == 41 then 0x00000040 else if i == 42 then 0x10000040 else if i == 43 then 0x10040000 else
    if i == 44 then 0x10040040 else if i == 45 then 0x10000000 else if i == 46 then 0x00040000 else if i == 47 then 0x10001040 else
    if i == 48 then 0x00000000 else if i == 49 then 0x10041040 else if i == 50 then 0x00040040 else if i == 51 then 0x10000040 else
    if i == 52 then 0x10040000 else if i == 53 then 0x10001000 else if i == 54 then 0x10001040 else if i == 55 then 0x00000000 else
    if i == 56 then 0x10041040 else if i == 57 then 0x00041000 else if i == 58 then 0x00041000 else if i == 59 then 0x00001040 else
    if i == 60 then 0x00001040 else if i == 61 then 0x00040040 else if i == 62 then 0x10000000 else 0x10041000
  }

  const BOXES: Boxes := Boxes(i => SB1(i), i => SB2(i), i => SB3(i), i => SB4(i), i => SB5(i), i => SB6(i), i => SB7(i), i => SB8(i))

  function LHs(i: bv6): bv32 {
    if i == 0 then 0x00000000 else if i == 1 then 0x00000001 else if i == 2 then 0x00000100 else if i == 3 then 0x00000101 else
    if i == 4 then 0x00010000 else if i == 5 then 0x00010001 else if i == 6 then 0x00010100 else if i == 7 then 0x00010101 else
    if i == 8 then 0x01000000 else if i == 9 then 0x01000001 else if i == 10 then 0x01000100 else if i == 11 then 0x01000101 else
    if i == 12 then 0x01010000 else if i == 13 then 0x01010001 else if i == 14 then 0x01010100 else 0x01010101
  }

  function RHs(i: bv6): bv32 {
    if i == 0 then 0x00000000 else if i == 1 then 0x01000000 else if i == 2 then 0x00010000 else if i == 3 then 0x01010000 else
    if i == 4 then 0x00000100 else if i == 5 then 0x01000100 else if i == 6 then 0x00010100 else if i == 7 then 0x01010100 else
    if i == 8 then 0x00000001 else if i == 9 then 0x01000001 else if i == 10 then 0x00010001 else if i == 11 then 0x01010001 else
    if i == 12 then 0x00000101 else if i == 13 then 0x01000101 else if i == 14 then 0x00010101 else 0x01010101
  }

  // ------------------------------------------------------------ the key schedule

  function Nibble(x: bv32, n: nat): bv6
    requires n < 32
  {
    ((x >> n) & 0xF) as bv6
  }

  /** Permuted choice 1: the 56 bits of a key in two halves. */
  function Choice1(x0: bv32, y0: bv32): Pair {
    var t := ((y0 >> 4) ^ x0) & 0x0F0F0F0F;
    var x1, y1 := x0 ^ t, y0 ^ (t << 4);
    var u := (y1 ^ x1) & 0x10101010;
    var x, y := x1 ^ u, y1 ^ u;
    Pair(((LHs(Nibble(x, 0)) << 3) | (LHs(Nibble(x, 8)) << 2) | (LHs(Nibble(x, 16)) << 1) | LHs(Nibble(x, 24)) |
          (LHs(Nibble(x, 5)) << 7) | (LHs(Nibble(x, 13)) << 6) | (LHs(Nibble(x, 21)) << 5) | (LHs(Nibble(x, 29)) << 4)) & 0x0FFFFFFF,
         ((RHs(Nibble(y, 1)) << 3) | (RHs(Nibble(y, 9)) << 2) | (RHs(Nibble(y, 17)) << 1) | RHs(Nibble(y, 25)) |
          (RHs(Nibble(y, 4)) << 7) | (RHs(Nibble(y, 12)) << 6) | (RHs(Nibble(y, 20)) << 5) | (RHs(Nibble(y, 28)) << 4)) & 0x0FFFFFFF)
  }

  predicate Single(i: nat) { i < 2 || i == 8 || i == 15 }

  function Turn(x: bv32, i: nat): bv32 {
    if Single(i) then ((x << 1) | (x >> 27)) & 0x0FFFFFFF else ((x << 2) | (x >> 26)) & 0x0FFFFFFF
  }

  /** The halves of round `i`, from 1. */
  function Turned(p: Pair, i: nat): Pair {
    if i == 0 then p else var q := Turned(p, i - 1); Pair(Turn(q.x, i - 1), Turn(q.y, i - 1))
  }

  /** Permuted choice 2: the subkeys of a round, for the S-boxes of even and of odd number. */
  function Choice2(p: Pair): Pair {
    var x, y := p.x, p.y;
    Pair(((x << 4) & 0x24000000) | ((x << 28) & 0x10000000) | ((x << 14) & 0x08000000) | ((x << 18) & 0x02080000) |
         ((x << 6) & 0x01000000) | ((x << 9) & 0x00200000) | ((x >> 1) & 0x00100000) | ((x << 10) & 0x00040000) |
         ((x << 2) & 0x00020000) | ((x >> 10) & 0x00010000) | ((y >> 13) & 0x00002000) | ((y >> 4) & 0x00001000) |
         ((y << 6) & 0x00000800) | ((y >> 1) & 0x00000400) | ((y >> 14) & 0x00000200) | (y & 0x00000100) |
         ((y >> 5) & 0x00000020) | ((y >> 10) & 0x00000010) | ((y >> 3) & 0x00000008) | ((y >> 18) & 0x00000004) |
         ((y >> 26) & 0x00000002) | ((y >> 24) & 0x00000001),
         ((x << 15) & 0x20000000) | ((x << 17) & 0x10000000) | ((x << 10) & 0x08000000) | ((x << 22) & 0x04000000) |
         ((x >> 2) & 0x02000000) | ((x << 1) & 0x01000000) | ((x << 16) & 0x00200000) | ((x << 11) & 0x00100000) |
         ((x << 3) & 0x00080000) | ((x >> 6) & 0x00040000) | ((x << 15) & 0x00020000) | ((x >> 4) & 0x00010000) |
         ((y >> 2) & 0x00002000) | ((y << 8) & 0x00001000) | ((y >> 14) & 0x00000808) | ((y >> 9) & 0x00000400) |
         (y & 0x00000200) | ((y << 7) & 0x00000100) | ((y >> 7) & 0x00000020) | ((y >> 3) & 0x00000011) |
         ((y << 2) & 0x00000004) | ((y >> 21) & 0x00000002))
  }

  function Halves(key: Bytes): Pair
    requires |key| == 8
  {
    Choice1(Get32(key[..4]), Get32(key[4..]))
  }

  function Subkey(key: Bytes, i: nat): Pair
    requires |key| == 8
  {
    Choice2(Turned(Halves(key), i + 1))
  }

  /** The keys of the sixteen rounds. */
  function Schedule(key: Bytes): (sk: Subkeys)
    requires |key| == 8
  {
    seq(32, k requires 0 <= k < 32 => if k % 2 == 0 then Subkey(key, k / 2).x else Subkey(key, k / 2).y)
  }

  /** des_main_ks */
  method MainKs(sk: array<bv32>, key: Bytes)
    requires sk.Length == 32 && |key| == 8
    modifies sk
    ensures sk[..] == Schedule(key)
  {
    hide Choice1, Choice2, Turn, Get32;
    var p := Choice1(Get32(key[..4]), Get32(key[4..]));
    var x, y := p.x, p.y;
    var i := 0;
    while i < 16
      invariant 0 <= i <= 16 && Pair(x, y) == Turned(Halves(key), i)
      invariant forall k :: 0 <= k < 2 * i ==> sk[k] == if k % 2 == 0 then Subkey(key, k / 2).x else Subkey(key, k / 2).y
    {
      x, y := Turn(x, i), Turn(y, i);
      var k := Choice2(Pair(x, y));
      sk[2 * i] := k.x;
      sk[2 * i + 1] := k.y;
      i := i + 1;
    }
  }

  // ---------------------------------------------------------------- entry points

  /** ldesencode: any text, under a key of eight bytes; None for the error about its size. */
  method LDesEncode(key: Bytes, text: Bytes) returns (r: Option<Bytes>)
    ensures r == if |key| != 8 then None else Some(Encode(BOXES, Schedule(key), text))
  {
    hide Encode, Schedule;
    if |key| != 8 {
      return None;
    }
    var sk := new bv32[32];
    MainKs(sk, key);
    var c := DesEncode(BOXES, sk[..], text);
    r := Some(c);
  }

  /** ldesdecode: None also for a length or a padding that is wrong. */
  method LDesDecode(key: Bytes, text: Bytes) returns (r: Option<Bytes>)
    ensures r == if |key| != 8 then None else Decode(BOXES, Schedule(key), text)
  {
    hide Decode, Schedule;
    if |key| != 8 {
      return None;
    }
    var sk := new bv32[32];
    MainKs(sk, key);
    r := DesDecode(BOXES, sk[..], text);
  }

  /** Under a key of eight bytes, every text comes back. */
  method Transfer(key: Bytes, text: Bytes) returns (c: Option<Bytes>, r: Option<Bytes>)
    ensures c.Some? <==> |key| == 8
    ensures c.Some? ==> |c.value| == (|text| + 8) / 8 * 8 && r == Some(text)
  {
    hide Schedule, CryptAll, Padded, Decode;
    c, r := None, None;
    c := LDesEncode(key, text);
    if c.Some? {
      RoundTrip(BOXES, Schedule(key), text);
      PaddedBytes(text);
      r := LDesDecode(key, c.value);
    }
  }
}
