/** What fixes the tables, the constants and the byte order that the two sides of the MD5 proofs have in
    common: the laws of sections 2 and 3.3 of RFC 1321, and its test value for "abc" (appendix A.5),
    operation by operation. */
module Md5Vectors {
  import opened Basics
  import opened WordBytes
  import opened BlockHash
  import opened Md5Machine
  import opened Md5Block
  import opened Md5

  // --- Byte order ---

  /** The bytes of word i, low-order byte first, are four bytes of the block in order. */
  lemma WordsAreLittleEndian(block: seq<Byte>, i: nat)
    requires |block| == 64 && i < 16
    ensures Bytes(Decode(block)[i]) == block[4 * i..4 * i + 4]
  {
    LeBytesBack(block[4 * i], block[4 * i + 1], block[4 * i + 2], block[4 * i + 3]);
  }

  /** What bytes stand for, low-order byte first. */
  function Number(b: seq<Byte>): nat {
    if b == [] then 0 else b[0] as int + 256 * Number(b[1..])
  }

  function Pow256(k: nat): nat {
    if k == 0 then 1 else 256 * Pow256(k - 1)
  }

  lemma {:induction false} DropFirst(n: nat, i: nat)
    ensures DropBytes(n, i + 1) == DropBytes(n / 256, i)
  {
    if i > 0 { DropFirst(n, i - 1); }
  }

  /** The length of a message is appended low-order byte first. */
  lemma {:induction false} NumberOfLeBytes(n: nat, k: nat)
    requires n < Pow256(k)
    ensures Number(LeBytes(n, k)) == n
  {
    if k > 0 {
      NumberOfLeBytes(n / 256, k - 1);
      var b := LeBytes(n, k);
      forall i | 0 <= i < k - 1 ensures b[1..][i] == LeBytes(n / 256, k - 1)[i] { DropFirst(n, i); }
      assert b[1..] == LeBytes(n / 256, k - 1) && b[0] == n % 256;
    }
  }

  // --- Literal words ---

  lemma InitA()
    ensures Bytes(0x67452301) == [0x01, 0x23, 0x45, 0x67]
  {
  }

  lemma InitB()
    ensures Bytes(0xefcdab89) == [0x89, 0xab, 0xcd, 0xef]
  {
  }

  lemma InitC()
    ensures Bytes(0x98badcfe) == [0xfe, 0xdc, 0xba, 0x98]
  {
  }

  lemma InitD()
    ensures Bytes(0x10325476) == [0x76, 0x54, 0x32, 0x10]
  {
  }

  lemma FinalA()
    ensures Bytes(0x98500190) == [0x90, 0x01, 0x50, 0x98]
  {
  }

  lemma FinalB()
    ensures Bytes(0xb04fd23c) == [0x3c, 0xd2, 0x4f, 0xb0]
  {
  }

  lemma FinalC()
    ensures Bytes(0x7d3f96d6) == [0xd6, 0x96, 0x3f, 0x7d]
  {
  }

  lemma FinalD()
    ensures Bytes(0x727fe128) == [0x28, 0xe1, 0x7f, 0x72]
  {
  }

  lemma OutputIs(r: Abcd, p: seq<Byte>, q: seq<Byte>, s: seq<Byte>, t: seq<Byte>)
    requires Bytes(r.a) == p && Bytes(r.b) == q && Bytes(r.c) == s && Bytes(r.d) == t
    ensures Output(r) == p + q + s + t
  {
  }

  /** The initial registers as section 3.3 gives them, low-order byte first. */
  lemma InitialBytes()
    ensures Output(INIT)
         == [0x01, 0x23, 0x45, 0x67] + [0x89, 0xab, 0xcd, 0xef] + [0xfe, 0xdc, 0xba, 0x98] + [0x76, 0x54, 0x32, 0x10]
  {
    InitA();
    InitB();
    InitC();
    InitD();
    OutputIs(INIT, [0x01, 0x23, 0x45, 0x67], [0x89, 0xab, 0xcd, 0xef], [0xfe, 0xdc, 0xba, 0x98], [0x76, 0x54, 0x32, 0x10]);
  }

  // --- The block of "abc" ---

  const ABC: seq<Byte> := [0x61, 0x62, 0x63]

  const ABC_WORDS: seq<Word> := [0x80636261, 0, 0, 0, 0, 0, 0, 0, 0, 0, 0, 0, 0, 0, 24, 0]

  lemma AbcLiterals()
    ensures Le(0x61, 0x62, 0x63, 0x80) == 0x80636261 && Le(0, 0, 0, 0) == 0 && Le(24, 0, 0, 0) == 24
  {
    LeOf(0x61, 0x62, 0x63, 0x80, 0x61, 0x62, 0x63, 0x80);
    LeOf(0, 0, 0, 0, 0, 0, 0, 0);
    LeOf(24, 0, 0, 0, 24, 0, 0, 0);
  }

  lemma AbcBlock(block: seq<Byte>)
    requires block == ABC + [0x80] + Zeros(52) + LeBytes(24, 8)
    ensures |block| == 64 && block[0] == 0x61 && block[1] == 0x62 && block[2] == 0x63 && block[3] == 0x80 && block[56] == 24
    ensures forall i :: 4 <= i < 64 && i != 56 ==> block[i] == 0
  {
    assert LeBytes(24, 8)[0] == 24;
    forall i | 1 <= i < 8 ensures LeBytes(24, 8)[i] == 0 { SmallNumber(24, i); }
  }

  lemma {:induction false} SmallNumber(n: nat, i: nat)
    requires n < 256 && i > 0
    ensures DropBytes(n, i) == 0
  {
    if i > 1 { SmallNumber(n, i - 1); }
  }

  lemma AbcWords(block: seq<Byte>)
    requires block == ABC + [0x80] + Zeros(52) + LeBytes(24, 8)
    ensures |block| == 64 && Decode(block) == ABC_WORDS
  {
    AbcBlock(block);
    AbcLiterals();
    forall i | 0 <= i < 16 ensures Decode(block)[i] == ABC_WORDS[i] { assert Below16(i); }
  }

  // --- Its 64 operations ---

  /** Operation n: f of the registers, the sum, the sum rotated, and the new value. */
  lemma Next(xs: seq<Word>, n: nat, r: Abcd, f: Word, sum: Word, turned: Word, v: Word) returns (r': Abcd)
    requires |xs| == 64 && n < 64 && MovingSteps(Operation, INIT, xs, MD5_K, n) == r
    requires f == RoundFunction(n, r.b, r.c, r.d) && sum == Sum(r.a, f, xs[n], MD5_K[n])
    requires turned == Circular(sum, RfcShift(n)) && v == Plus(r.b, turned)
    ensures MovingSteps(Operation, INIT, xs, MD5_K, n + 1) == r' == Registers(r.d, v, r.b, r.c)
  {
    r' := Registers(r.d, v, r.b, r.c);
  }

  lemma Tables1(xs: seq<Word>)
    requires xs == Inputs(ABC_WORDS)
    ensures MD5_K[0] == 0xd76aa478 && MD5_K[1] == 0xe8c7b756 && MD5_K[2] == 0x242070db && MD5_K[3] == 0xc1bdceee
    ensures xs[0] == 0x80636261 && xs[1] == 0 && xs[2] == 0 && xs[3] == 0
    ensures MD5_K[4] == 0xf57c0faf && MD5_K[5] == 0x4787c62a && MD5_K[6] == 0xa8304613 && MD5_K[7] == 0xfd469501
    ensures xs[4] == 0 && xs[5] == 0 && xs[6] == 0 && xs[7] == 0
    ensures MD5_K[8] == 0x698098d8 && MD5_K[9] == 0x8b44f7af && MD5_K[10] == 0xffff5bb1 && MD5_K[11] == 0x895cd7be
    ensures xs[8] == 0 && xs[9] == 0 && xs[10] == 0 && xs[11] == 0
    ensures MD5_K[12] == 0x6b901122 && MD5_K[13] == 0xfd987193 && MD5_K[14] == 0xa679438e && MD5_K[15] == 0x49b40821
    ensures xs[12] == 0 && xs[13] == 0 && xs[14] == 24 && xs[15] == 0
  {
  }

  lemma Values1()
    ensures F(0xefcdab89, 0x98badcfe, 0x10325476) == 0x98badcfe && Sum(0x67452301, 0x98badcfe, 0x80636261, 0xd76aa478) == 0x57ce06d8
    ensures Circular(0x57ce06d8, 7) == 0xe7036c2b && Plus(0xefcdab89, 0xe7036c2b) == 0xd6d117b4
    ensures F(0xd6d117b4, 0xefcdab89, 0x98badcfe) == 0xceebcbca && Sum(0x10325476, 0xceebcbca, 0, 0xe8c7b756) == 0xc7e5d796
    ensures Circular(0xc7e5d796, 12) == 0x5d796c7e && Plus(0xd6d117b4, 0x5d796c7e) == 0x344a8432
    ensures F(0x344a8432, 0xd6d117b4, 0xefcdab89) == 0xdfc52fb9 && Sum(0x98badcfe, 0xdfc52fb9, 0, 0x242070db) == 0x9ca07d92
    ensures Circular(0x9ca07d92, 17) == 0xfb253940 && Plus(0x344a8432, 0xfb253940) == 0x2f6fbd72
    ensures F(0x2f6fbd72, 0x344a8432, 0xd6d117b4) == 0xf4da86b6 && Sum(0xefcdab89, 0xf4da86b6, 0, 0xc1bdceee) == 0xa666012d
    ensures Circular(0xa666012d, 22) == 0x4b699980 && Plus(0x2f6fbd72, 0x4b699980) == 0x7ad956f2
    ensures F(0x7ad956f2, 0x2f6fbd72, 0x344a8432) == 0x2e4b9472 && Sum(0xd6d117b4, 0x2e4b9472, 0, 0xf57c0faf) == 0xfa98bbd5
    ensures Circular(0xfa98bbd5, 7) == 0x4c5deafd && Plus(0x7ad956f2, 0x4c5deafd) == 0xc73741ef
    ensures F(0xc73741ef, 0x7ad956f2, 0x2f6fbd72) == 0x6a59fcf2 && Sum(0x344a8432, 0x6a59fcf2, 0, 0x4787c62a) == 0xe62c474e
    ensures Circular(0xe62c474e, 12) == 0xc474ee62 && Plus(0xc73741ef, 0xc474ee62) == 0x8bac3051
    ensures F(0x8bac3051, 0xc73741ef, 0x7ad956f2) == 0xf37546e3 && Sum(0x2f6fbd72, 0xf37546e3, 0, 0xa8304613) == 0xcb154a68
    ensures Circular(0xcb154a68, 17) == 0x94d1962a && Plus(0x8bac3051, 0x94d1962a) == 0x207dc67b
    ensures F(0x207dc67b, 0x8bac3051, 0xc73741ef) == 0xc72e01d5 && Sum(0x7ad956f2, 0xc72e01d5, 0, 0xfd469501) == 0x3f4dedc8
    ensures Circular(0x3f4dedc8, 22) == 0x720fd37b && Plus(0x207dc67b, 0x720fd37b) == 0x928d99f6
    ensures F(0x928d99f6, 0x207dc67b, 0x8bac3051) == 0x092da073 && Sum(0xc73741ef, 0x092da073, 0, 0x698098d8) == 0x39e57b3a
    ensures Circular(0x39e57b3a, 7) == 0xf2bd9d1c && Plus(0x928d99f6, 0xf2bd9d1c) == 0x854b3712
    ensures F(0x854b3712, 0x928d99f6, 0x207dc67b) == 0xa03dd17b && Sum(0x8bac3051, 0xa03dd17b, 0, 0x8b44f7af) == 0xb72ef97b
    ensures Circular(0xb72ef97b, 12) == 0xef97bb72 && Plus(0x854b3712, 0xef97bb72) == 0x74e2f284
    ensures F(0x74e2f284, 0x854b3712, 0x928d99f6) == 0x864f3b72 && Sum(0x207dc67b, 0x864f3b72, 0, 0xffff5bb1) == 0xa6cc5d9e
    ensures Circular(0xa6cc5d9e, 17) == 0xbb3d4d98 && Plus(0x74e2f284, 0xbb3d4d98) == 0x3020401c
    ensures F(0x3020401c, 0x74e2f284, 0x854b3712) == 0xb56b7706 && Sum(0x928d99f6, 0xb56b7706, 0, 0x895cd7be) == 0xd155e8ba
    ensures Circular(0xd155e8ba, 22) == 0x2eb4557a && Plus(0x3020401c, 0x2eb4557a) == 0x5ed49596
    ensures F(0x5ed49596, 0x3020401c, 0x74e2f284) == 0x30226214 && Sum(0x854b3712, 0x30226214, 0, 0x6b901122) == 0x20fdaa48
    ensures Circular(0x20fdaa48, 7) == 0x7ed52410 && Plus(0x5ed49596, 0x7ed52410) == 0xdda9b9a6
    ensures F(0xdda9b9a6, 0x5ed49596, 0x3020401c) == 0x7c80d19e && Sum(0x74e2f284, 0x7c80d19e, 0, 0xfd987193) == 0xeefc35b5
    ensures Circular(0xeefc35b5, 12) == 0xc35b5eef && Plus(0xdda9b9a6, 0xc35b5eef) == 0xa1051895
    ensures F(0xa1051895, 0xdda9b9a6, 0x5ed49596) == 0xdfd19d86 && Sum(0x3020401c, 0xdfd19d86, 24, 0xa679438e) == 0xb66b2148
    ensures Circular(0xb66b2148, 17) == 0x42916cd6 && Plus(0xa1051895, 0x42916cd6) == 0xe396856b
    ensures F(0xe396856b, 0xa1051895, 0xdda9b9a6) == 0xbd2d3885 && Sum(0x5ed49596, 0xbd2d3885, 0, 0x49b40821) == 0x65b5d63c
    ensures Circular(0x65b5d63c, 22) == 0x8f196d75 && Plus(0xe396856b, 0x8f196d75) == 0x72aff2e0
  {
  }

  lemma Round1(xs: seq<Word>)
    requires xs == Inputs(ABC_WORDS)
    requires MovingSteps(Operation, INIT, xs, MD5_K, 0) == Registers(0x67452301, 0xefcdab89, 0x98badcfe, 0x10325476)
    ensures MovingSteps(Operation, INIT, xs, MD5_K, 16) == Registers(0xdda9b9a6, 0x72aff2e0, 0xe396856b, 0xa1051895)
  {
    Tables1(xs);
    Values1();
    var r := Registers(0x67452301, 0xefcdab89, 0x98badcfe, 0x10325476);
    r := Next(xs, 0, r, 0x98badcfe, 0x57ce06d8, 0xe7036c2b, 0xd6d117b4);
    r := Next(xs, 1, r, 0xceebcbca, 0xc7e5d796, 0x5d796c7e, 0x344a8432);
    r := Next(xs, 2, r, 0xdfc52fb9, 0x9ca07d92, 0xfb253940, 0x2f6fbd72);
    r := Next(xs, 3, r, 0xf4da86b6, 0xa666012d, 0x4b699980, 0x7ad956f2);
    r := Next(xs, 4, r, 0x2e4b9472, 0xfa98bbd5, 0x4c5deafd, 0xc73741ef);
    r := Next(xs, 5, r, 0x6a59fcf2, 0xe62c474e, 0xc474ee62, 0x8bac3051);
    r := Next(xs, 6, r, 0xf37546e3, 0xcb154a68, 0x94d1962a, 0x207dc67b);
    r := Next(xs, 7, r, 0xc72e01d5, 0x3f4dedc8, 0x720fd37b, 0x928d99f6);
    r := Next(xs, 8, r, 0x092da073, 0x39e57b3a, 0xf2bd9d1c, 0x854b3712);
    r := Next(xs, 9, r, 0xa03dd17b, 0xb72ef97b, 0xef97bb72, 0x74e2f284);
    r := Next(xs, 10, r, 0x864f3b72, 0xa6cc5d9e, 0xbb3d4d98, 0x3020401c);
    r := Next(xs, 11, r, 0xb56b7706, 0xd155e8ba, 0x2eb4557a, 0x5ed49596);
    r := Next(xs, 12, r, 0x30226214, 0x20fdaa48, 0x7ed52410, 0xdda9b9a6);
    r := Next(xs, 13, r, 0x7c80d19e, 0xeefc35b5, 0xc35b5eef, 0xa1051895);
    r := Next(xs, 14, r, 0xdfd19d86, 0xb66b2148, 0x42916cd6, 0xe396856b);
    r := Next(xs, 15, r, 0xbd2d3885, 0x65b5d63c, 0x8f196d75, 0x72aff2e0);
  }

  lemma Tables2(xs: seq<Word>)
    requires xs == Inputs(ABC_WORDS)
    ensures MD5_K[16] == 0xf61e2562 && MD5_K[17] == 0xc040b340 && MD5_K[18] == 0x265e5a51 && MD5_K[19] == 0xe9b6c7aa
    ensures xs[16] == 0 && xs[17] == 0 && xs[18] == 0 && xs[19] == 0x80636261
    ensures MD5_K[20] == 0xd62f105d && MD5_K[21] == 0x02441453 && MD5_K[22] == 0xd8a1e681 && MD5_K[23] == 0xe7d3fbc8
    ensures xs[20] == 0 && xs[21] == 0 && xs[22] == 0 && xs[23] == 0
    ensures MD5_K[24] == 0x21e1cde6 && MD5_K[25] == 0xc33707d6 && MD5_K[26] == 0xf4d50d87 && MD5_K[27] == 0x455a14ed
    ensures xs[24] == 0 && xs[25] == 24 && xs[26] == 0 && xs[27] == 0
    ensures MD5_K[28] == 0xa9e3e905 && MD5_K[29] == 0xfcefa3f8 && MD5_K[30] == 0x676f02d9 && MD5_K[31] == 0x8d2a4c8a
    ensures xs[28] == 0 && xs[29] == 0 && xs[30] == 0 && xs[31] == 0
  {
  }

  lemma Values2()
    ensures G(0x72aff2e0, 0xe396856b, 0xa1051895) == 0x629795ea && Sum(0xdda9b9a6, 0x629795ea, 0, 0xf61e2562) == 0x365f74f2
    ensures Circular(0x365f74f2, 5) == 0xcbee9e46 && Plus(0x72aff2e0, 0xcbee9e46) == 0x3e9e9126
    ensures G(0x3e9e9126, 0x72aff2e0, 0xe396856b) == 0x32bff3a2 && Sum(0xa1051895, 0x32bff3a2, 0, 0xc040b340) == 0x9405bf77
    ensures Circular(0x9405bf77, 9) == 0x0b7eef28 && Plus(0x3e9e9126, 0x0b7eef28) == 0x4a1d804e
    ensures G(0x4a1d804e, 0x3e9e9126, 0x72aff2e0) == 0x4e1d8146 && Sum(0xe396856b, 0x4e1d8146, 0, 0x265e5a51) == 0x58126102
    ensures Circular(0x58126102, 14) == 0x98409604 && Plus(0x4a1d804e, 0x98409604) == 0xe25e1652
    ensures G(0xe25e1652, 0x4a1d804e, 0x3e9e9126) == 0x621f104a && Sum(0x72aff2e0, 0x621f104a, 0x80636261, 0xe9b6c7aa) == 0x3ee92d35
    ensures Circular(0x3ee92d35, 20) == 0xd353ee92 && Plus(0xe25e1652, 0xd353ee92) == 0xb5b204e4
    ensures G(0xb5b204e4, 0xe25e1652, 0x4a1d804e) == 0xa0521654 && Sum(0x3e9e9126, 0xa0521654, 0, 0xd62f105d) == 0xb51fb7d7
    ensures Circular(0xb51fb7d7, 5) == 0xa3f6faf6 && Plus(0xb5b204e4, 0xa3f6faf6) == 0x59a8ffda
    ensures G(0x59a8ffda, 0xb5b204e4, 0xe25e1652) == 0x55a816f6 && Sum(0x4a1d804e, 0x55a816f6, 0, 0x02441453) == 0xa209ab97
    ensures Circular(0xa209ab97, 9) == 0x13572f44 && Plus(0x59a8ffda, 0x13572f44) == 0x6d002f1e
    ensures G(0x6d002f1e, 0x59a8ffda, 0xb5b204e4) == 0x6d08ff1e && Sum(0xe25e1652, 0x6d08ff1e, 0, 0xd8a1e681) == 0x2808fbf1
    ensures Circular(0x2808fbf1, 14) == 0x3efc4a02 && Plus(0x6d002f1e, 0x3efc4a02) == 0xabfc7920
    ensures G(0xabfc7920, 0x6d002f1e, 0x59a8ffda) == 0x2da87904 && Sum(0xb5b204e4, 0x2da87904, 0, 0xe7d3fbc8) == 0xcb2e79b0
    ensures Circular(0xcb2e79b0, 20) == 0x9b0cb2e7 && Plus(0xabfc7920, 0x9b0cb2e7) == 0x47092c07
    ensures G(0x47092c07, 0xabfc7920, 0x6d002f1e) == 0xc7fc7c26 && Sum(0x59a8ffda, 0xc7fc7c26, 0, 0x21e1cde6) == 0x438749e6
    ensures Circular(0x438749e6, 5) == 0x70e93cc8 && Plus(0x47092c07, 0x70e93cc8) == 0xb7f268cf
    ensures G(0xb7f268cf, 0x47092c07, 0xabfc7920) == 0xe7f16c07 && Sum(0x6d002f1e, 0xe7f16c07, 24, 0xc33707d6) == 0x1828a313
    ensures Circular(0x1828a313, 9) == 0x51462630 && Plus(0xb7f268cf, 0x51462630) == 0x09388eff
    ensures G(0x09388eff, 0xb7f268cf, 0x47092c07) == 0xb1fa4ccf && Sum(0xabfc7920, 0xb1fa4ccf, 0, 0xf4d50d87) == 0x52cbd376
    ensures Circular(0x52cbd376, 14) == 0xf4dd94b2 && Plus(0x09388eff, 0xf4dd94b2) == 0xfe1623b1
    ensures G(0xfe1623b1, 0x09388eff, 0xb7f268cf) == 0xbe1aa6b1 && Sum(0x47092c07, 0xbe1aa6b1, 0, 0x455a14ed) == 0x4a7de7a5
    ensures Circular(0x4a7de7a5, 20) == 0x7a54a7de && Plus(0xfe1623b1, 0x7a54a7de) == 0x786acb8f
    ensures G(0x786acb8f, 0xfe1623b1, 0x09388eff) == 0xfe2eab8f && Sum(0xb7f268cf, 0xfe2eab8f, 0, 0xa9e3e905) == 0x6004fd63
    ensures Circular(0x6004fd63, 5) == 0x009fac6c && Plus(0x786acb8f, 0x009fac6c) == 0x790a77fb
    ensures G(0x790a77fb, 0x786acb8f, 0xfe1623b1) == 0x786aebbf && Sum(0x09388eff, 0x786aebbf, 0, 0xfcefa3f8) == 0x7e931eb6
    ensures Circular(0x7e931eb6, 9) == 0x263d6cfd && Plus(0x790a77fb, 0x263d6cfd) == 0x9f47e4f8
    ensures G(0x9f47e4f8, 0x790a77fb, 0x786acb8f) == 0x1942f4f8 && Sum(0xfe1623b1, 0x1942f4f8, 0, 0x676f02d9) == 0x7ec81b82
    ensures Circular(0x7ec81b82, 14) == 0x06e09fb2 && Plus(0x9f47e4f8, 0x06e09fb2) == 0xa62884aa
    ensures G(0xa62884aa, 0x9f47e4f8, 0x790a77fb) == 0xa64d84aa && Sum(0x786acb8f, 0xa64d84aa, 0, 0x8d2a4c8a) == 0xabe29cc3
    ensures Circular(0xabe29cc3, 20) == 0xcc3abe29 && Plus(0xa62884aa, 0xcc3abe29) == 0x726342d3
  {
  }

  lemma Round2(xs: seq<Word>)
    requires xs == Inputs(ABC_WORDS)
    requires MovingSteps(Operation, INIT, xs, MD5_K, 16) == Registers(0xdda9b9a6, 0x72aff2e0, 0xe396856b, 0xa1051895)
    ensures MovingSteps(Operation, INIT, xs, MD5_K, 32) == Registers(0x790a77fb, 0x726342d3, 0xa62884aa, 0x9f47e4f8)
  {
    Tables2(xs);
    Values2();
    var r := Registers(0xdda9b9a6, 0x72aff2e0, 0xe396856b, 0xa1051895);
    r := Next(xs, 16, r, 0x629795ea, 0x365f74f2, 0xcbee9e46, 0x3e9e9126);
    r := Next(xs, 17, r, 0x32bff3a2, 0x9405bf77, 0x0b7eef28, 0x4a1d804e);
    r := Next(xs, 18, r, 0x4e1d8146, 0x58126102, 0x98409604, 0xe25e1652);
    r := Next(xs, 19, r, 0x621f104a, 0x3ee92d35, 0xd353ee92, 0xb5b204e4);
    r := Next(xs, 20, r, 0xa0521654, 0xb51fb7d7, 0xa3f6faf6, 0x59a8ffda);
    r := Next(xs, 21, r, 0x55a816f6, 0xa209ab97, 0x13572f44, 0x6d002f1e);
    r := Next(xs, 22, r, 0x6d08ff1e, 0x2808fbf1, 0x3efc4a02, 0xabfc7920);
    r := Next(xs, 23, r, 0x2da87904, 0xcb2e79b0, 0x9b0cb2e7, 0x47092c07);
    r := Next(xs, 24, r, 0xc7fc7c26, 0x438749e6, 0x70e93cc8, 0xb7f268cf);
    r := Next(xs, 25, r, 0xe7f16c07, 0x1828a313, 0x51462630, 0x09388eff);
    r := Next(xs, 26, r, 0xb1fa4ccf, 0x52cbd376, 0xf4dd94b2, 0xfe1623b1);
    r := Next(xs, 27, r, 0xbe1aa6b1, 0x4a7de7a5, 0x7a54a7de, 0x786acb8f);
    r := Next(xs, 28, r, 0xfe2eab8f, 0x6004fd63, 0x009fac6c, 0x790a77fb);
    r := Next(xs, 29, r, 0x786aebbf, 0x7e931eb6, 0x263d6cfd, 0x9f47e4f8);
    r := Next(xs, 30, r, 0x1942f4f8, 0x7ec81b82, 0x06e09fb2, 0xa62884aa);
    r := Next(xs, 31, r, 0xa64d84aa, 0xabe29cc3, 0xcc3abe29, 0x726342d3);
  }

  lemma Tables3(xs: seq<Word>)
    requires xs == Inputs(ABC_WORDS)
    ensures MD5_K[32] == 0xfffa3942 && MD5_K[33] == 0x8771f681 && MD5_K[34] == 0x6d9d6122 && MD5_K[35] == 0xfde5380c
    ensures xs[32] == 0 && xs[33] == 0 && xs[34] == 0 && xs[35] == 24
    ensures MD5_K[36] == 0xa4beea44 && MD5_K[37] == 0x4bdecfa9 && MD5_K[38] == 0xf6bb4b60 && MD5_K[39] == 0xbebfbc70
    ensures xs[36] == 0 && xs[37] == 0 && xs[38] == 0 && xs[39] == 0
    ensures MD5_K[40] == 0x289b7ec6 && MD5_K[41] == 0xeaa127fa && MD5_K[42] == 0xd4ef3085 && MD5_K[43] == 0x04881d05
    ensures xs[40] == 0 && xs[41] == 0x80636261 && xs[42] == 0 && xs[43] == 0
    ensures MD5_K[44] == 0xd9d4d039 && MD5_K[45] == 0xe6db99e5 && MD5_K[46] == 0x1fa27cf8 && MD5_K[47] == 0xc4ac5665
    ensures xs[44] == 0 && xs[45] == 0 && xs[46] == 0 && xs[47] == 0
  {
  }

  lemma Values3()
    ensures H(0x726342d3, 0xa62884aa, 0x9f47e4f8) == 0x4b0c2281 && Sum(0x790a77fb, 0x4b0c2281, 0, 0xfffa3942) == 0xc410d3be
    ensures Circular(0xc410d3be, 4) == 0x410d3bec && Plus(0x726342d3, 0x410d3bec) == 0xb3707ebf
    ensures H(0xb3707ebf, 0x726342d3, 0xa62884aa) == 0x673bb8c6 && Sum(0x9f47e4f8, 0x673bb8c6, 0, 0x8771f681) == 0x8df5943f
    ensures Circular(0x8df5943f, 11) == 0xaca1fc6f && Plus(0xb3707ebf, 0xaca1fc6f) == 0x60127b2e
    ensures H(0x60127b2e, 0xb3707ebf, 0x726342d3) == 0xa1014742 && Sum(0xa62884aa, 0xa1014742, 0, 0x6d9d6122) == 0xb4c72d0e
    ensures Circular(0xb4c72d0e, 16) == 0x2d0eb4c7 && Plus(0x60127b2e, 0x2d0eb4c7) == 0x8d212ff5
    ensures H(0x8d212ff5, 0x60127b2e, 0xb3707ebf) == 0x5e432a64 && Sum(0x726342d3, 0x5e432a64, 24, 0xfde5380c) == 0xce8ba55b
    ensures Circular(0xce8ba55b, 23) == 0xade745d2 && Plus(0x8d212ff5, 0xade745d2) == 0x3b0875c7
    ensures H(0x3b0875c7, 0x8d212ff5, 0x60127b2e) == 0xd63b211c && Sum(0xb3707ebf, 0xd63b211c, 0, 0xa4beea44) == 0x2e6a8a1f
    ensures Circular(0x2e6a8a1f, 4) == 0xe6a8a1f2 && Plus(0x3b0875c7, 0xe6a8a1f2) == 0x21b117b9
    ensures H(0x21b117b9, 0x3b0875c7, 0x8d212ff5) == 0x97984d8b && Sum(0x60127b2e, 0x97984d8b, 0, 0x4bdecfa9) == 0x43899862
    ensures Circular(0x43899862, 11) == 0x4cc3121c && Plus(0x21b117b9, 0x4cc3121c) == 0x6e7429d5
    ensures H(0x6e7429d5, 0x21b117b9, 0x3b0875c7) == 0x74cd4bab && Sum(0x8d212ff5, 0x74cd4bab, 0, 0xf6bb4b60) == 0xf8a9c700
    ensures Circular(0xf8a9c700, 16) == 0xc700f8a9 && Plus(0x6e7429d5, 0xc700f8a9) == 0x3575227e
    ensures H(0x3575227e, 0x6e7429d5, 0x21b117b9) == 0x7ab01c12 && Sum(0x3b0875c7, 0x7ab01c12, 0, 0xbebfbc70) == 0x74784e49
    ensures Circular(0x74784e49, 23) == 0x24ba3c27 && Plus(0x3575227e, 0x24ba3c27) == 0x5a2f5ea5
    ensures H(0x5a2f5ea5, 0x3575227e, 0x6e7429d5) == 0x012e550e && Sum(0x21b117b9, 0x012e550e, 0, 0x289b7ec6) == 0x4b7aeb8d
    ensures Circular(0x4b7aeb8d, 4) == 0xb7aeb8d4 && Plus(0x5a2f5ea5, 0xb7aeb8d4) == 0x11de1779
    ensures H(0x11de1779, 0x5a2f5ea5, 0x3575227e) == 0x7e846ba2 && Sum(0x6e7429d5, 0x7e846ba2, 0x80636261, 0xeaa127fa) == 0x57fd1fd2
    ensures Circular(0x57fd1fd2, 11) == 0xe8fe92bf && Plus(0x11de1779, 0xe8fe92bf) == 0xfadcaa38
    ensures H(0xfadcaa38, 0x11de1779, 0x5a2f5ea5) == 0xb12de3e4 && Sum(0x3575227e, 0xb12de3e4, 0, 0xd4ef3085) == 0xbb9236e7
    ensures Circular(0xbb9236e7, 16) == 0x36e7bb92 && Plus(0xfadcaa38, 0x36e7bb92) == 0x31c465ca
    ensures H(0x31c465ca, 0xfadcaa38, 0x11de1779) == 0xdac6d88b && Sum(0x5a2f5ea5, 0xdac6d88b, 0, 0x04881d05) == 0x397e5435
    ensures Circular(0x397e5435, 23) == 0x1a9cbf2a && Plus(0x31c465ca, 0x1a9cbf2a) == 0x4c6124f4
    ensures H(0x4c6124f4, 0x31c465ca, 0xfadcaa38) == 0x8779eb06 && Sum(0x11de1779, 0x8779eb06, 0, 0xd9d4d039) == 0x732cd2b8
    ensures Circular(0x732cd2b8, 4) == 0x32cd2b87 && Plus(0x4c6124f4, 0x32cd2b87) == 0x7f2e507b
    ensures H(0x7f2e507b, 0x4c6124f4, 0x31c465ca) == 0x028b1145 && Sum(0xfadcaa38, 0x028b1145, 0, 0xe6db99e5) == 0xe4435562
    ensures Circular(0xe4435562, 11) == 0x1aab1722 && Plus(0x7f2e507b, 0x1aab1722) == 0x99d9679d
    ensures H(0x99d9679d, 0x7f2e507b, 0x4c6124f4) == 0xaa961312 && Sum(0x31c465ca, 0xaa961312, 0, 0x1fa27cf8) == 0xfbfcf5d4
    ensures Circular(0xfbfcf5d4, 16) == 0xf5d4fbfc && Plus(0x99d9679d, 0xf5d4fbfc) == 0x8fae6399
    ensures H(0x8fae6399, 0x99d9679d, 0x7f2e507b) == 0x6959547f && Sum(0x4c6124f4, 0x6959547f, 0, 0xc4ac5665) == 0x7a66cfd8
    ensures Circular(0x7a66cfd8, 23) == 0xec3d3367 && Plus(0x8fae6399, 0xec3d3367) == 0x7beb9700
  {
  }

  lemma Round3(xs: seq<Word>)
    requires xs == Inputs(ABC_WORDS)
    requires MovingSteps(Operation, INIT, xs, MD5_K, 32) == Registers(0x790a77fb, 0x726342d3, 0xa62884aa, 0x9f47e4f8)
    ensures MovingSteps(Operation, INIT, xs, MD5_K, 48) == Registers(0x7f2e507b, 0x7beb9700, 0x8fae6399, 0x99d9679d)
  {
    Tables3(xs);
    Values3();
    var r := Registers(0x790a77fb, 0x726342d3, 0xa62884aa, 0x9f47e4f8);
    r := Next(xs, 32, r, 0x4b0c2281, 0xc410d3be, 0x410d3bec, 0xb3707ebf);
    r := Next(xs, 33, r, 0x673bb8c6, 0x8df5943f, 0xaca1fc6f, 0x60127b2e);
    r := Next(xs, 34, r, 0xa1014742, 0xb4c72d0e, 0x2d0eb4c7, 0x8d212ff5);
    r := Next(xs, 35, r, 0x5e432a64, 0xce8ba55b, 0xade745d2, 0x3b0875c7);
    r := Next(xs, 36, r, 0xd63b211c, 0x2e6a8a1f, 0xe6a8a1f2, 0x21b117b9);
    r := Next(xs, 37, r, 0x97984d8b, 0x43899862, 0x4cc3121c, 0x6e7429d5);
    r := Next(xs, 38, r, 0x74cd4bab, 0xf8a9c700, 0xc700f8a9, 0x3575227e);
    r := Next(xs, 39, r, 0x7ab01c12, 0x74784e49, 0x24ba3c27, 0x5a2f5ea5);
    r := Next(xs, 40, r, 0x012e550e, 0x4b7aeb8d, 0xb7aeb8d4, 0x11de1779);
    r := Next(xs, 41, r, 0x7e846ba2, 0x57fd1fd2, 0xe8fe92bf, 0xfadcaa38);
    r := Next(xs, 42, r, 0xb12de3e4, 0xbb9236e7, 0x36e7bb92, 0x31c465ca);
    r := Next(xs, 43, r, 0xdac6d88b, 0x397e5435, 0x1a9cbf2a, 0x4c6124f4);
    r := Next(xs, 44, r, 0x8779eb06, 0x732cd2b8, 0x32cd2b87, 0x7f2e507b);
    r := Next(xs, 45, r, 0x028b1145, 0xe4435562, 0x1aab1722, 0x99d9679d);
    r := Next(xs, 46, r, 0xaa961312, 0xfbfcf5d4, 0xf5d4fbfc, 0x8fae6399);
    r := Next(xs, 47, r, 0x6959547f, 0x7a66cfd8, 0xec3d3367, 0x7beb9700);
  }

  lemma Tables4(xs: seq<Word>)
    requires xs == Inputs(ABC_WORDS)
    ensures MD5_K[48] == 0xf4292244 && MD5_K[49] == 0x432aff97 && MD5_K[50] == 0xab9423a7 && MD5_K[51] == 0xfc93a039
    ensures xs[48] == 0x80636261 && xs[49] == 0 && xs[50] == 24 && xs[51] == 0
    ensures MD5_K[52] == 0x655b59c3 && MD5_K[53] == 0x8f0ccc92 && MD5_K[54] == 0xffeff47d && MD5_K[55] == 0x85845dd1
    ensures xs[52] == 0 && xs[53] == 0 && xs[54] == 0 && xs[55] == 0
    ensures MD5_K[56] == 0x6fa87e4f && MD5_K[57] == 0xfe2ce6e0 && MD5_K[58] == 0xa3014314 && MD5_K[59] == 0x4e0811a1
    ensures xs[56] == 0 && xs[57] == 0 && xs[58] == 0 && xs[59] == 0
    ensures MD5_K[60] == 0xf7537e82 && MD5_K[61] == 0xbd3af235 && MD5_K[62] == 0x2ad7d2bb && MD5_K[63] == 0xeb86d391
    ensures xs[60] == 0 && xs[61] == 0 && xs[62] == 0 && xs[63] == 0
  {
  }

  lemma Values4()
    ensures I(0x7beb9700, 0x8fae6399, 0x99d9679d) == 0xf041fcfb && Sum(0x7f2e507b, 0xf041fcfb, 0x80636261, 0xf4292244) == 0xe3fcd21b
    ensures Circular(0xe3fcd21b, 6) == 0xff3486f8 && Plus(0x7beb9700, 0xff3486f8) == 0x7b201df8
    ensures I(0x7b201df8, 0x7beb9700, 0x8fae6399) == 0x009a0afe && Sum(0x99d9679d, 0x009a0afe, 0, 0x432aff97) == 0xdd9e7232
    ensures Circular(0xdd9e7232, 10) == 0x79c8cb76 && Plus(0x7b201df8, 0x79c8cb76) == 0xf4e8e96e
    ensures I(0xf4e8e96e, 0x7b201df8, 0x7beb9700) == 0x8fdcf407 && Sum(0x8fae6399, 0x8fdcf407, 24, 0xab9423a7) == 0xcb1f7b5f
    ensures Circular(0xcb1f7b5f, 15) == 0xbdafe58f && Plus(0xf4e8e96e, 0xbdafe58f) == 0xb298cefd
    ensures I(0xb298cefd, 0xf4e8e96e, 0x7b201df8) == 0x42370791 && Sum(0x7beb9700, 0x42370791, 0, 0xfc93a039) == 0xbab63eca
    ensures Circular(0xbab63eca, 21) == 0xd95756c7 && Plus(0xb298cefd, 0xd95756c7) == 0x8bf025c4
    ensures I(0x8bf025c4, 0xb298cefd, 0xf4e8e96e) == 0x396ff928 && Sum(0x7b201df8, 0x396ff928, 0, 0x655b59c3) == 0x19eb70e3
    ensures Circular(0x19eb70e3, 6) == 0x7adc38c6 && Plus(0x8bf025c4, 0x7adc38c6) == 0x06cc5e8a
    ensures I(0x06cc5e8a, 0x8bf025c4, 0xb298cefd) == 0xc41f5a4e && Sum(0xf4e8e96e, 0xc41f5a4e, 0, 0x8f0ccc92) == 0x4815104e
    ensures Circular(0x4815104e, 10) == 0x54413920 && Plus(0x06cc5e8a, 0x54413920) == 0x5b0d97aa
    ensures I(0x5b0d97aa, 0x06cc5e8a, 0x8bf025c4) == 0x79c38131 && Sum(0xb298cefd, 0x79c38131, 0, 0xffeff47d) == 0x2c4c44ab
    ensures Circular(0x2c4c44ab, 15) == 0x22559626 && Plus(0x5b0d97aa, 0x22559626) == 0x7d632dd0
    ensures I(0x7d632dd0, 0x5b0d97aa, 0x06cc5e8a) == 0xa67e3a5f && Sum(0x8bf025c4, 0xa67e3a5f, 0, 0x85845dd1) == 0xb7f2bdf4
    ensures Circular(0xb7f2bdf4, 21) == 0xbe96fe57 && Plus(0x7d632dd0, 0xbe96fe57) == 0x3bfa2c27
    ensures I(0x3bfa2c27, 0x7d632dd0, 0x5b0d97aa) == 0xc29941a7 && Sum(0x06cc5e8a, 0xc29941a7, 0, 0x6fa87e4f) == 0x390e1e80
    ensures Circular(0x390e1e80, 6) == 0x4387a00e && Plus(0x3bfa2c27, 0x4387a00e) == 0x7f81cc35
    ensures I(0x7f81cc35, 0x3bfa2c27, 0x7d632dd0) == 0xc467f218 && Sum(0x5b0d97aa, 0xc467f218, 0, 0xfe2ce6e0) == 0x1da270a2
    ensures Circular(0x1da270a2, 10) == 0x89c28876 && Plus(0x7f81cc35, 0x89c28876) == 0x094454ab
    ensures I(0x094454ab, 0x7f81cc35, 0x3bfa2c27) == 0xb2c41bce && Sum(0x7d632dd0, 0xb2c41bce, 0, 0xa3014314) == 0xd3288cb2
    ensures Circular(0xd3288cb2, 15) == 0x46596994 && Plus(0x094454ab, 0x46596994) == 0x4f9dbe3f
    ensures I(0x4f9dbe3f, 0x094454ab, 0x7f81cc35) == 0xc6bbeb54 && Sum(0x3bfa2c27, 0xc6bbeb54, 0, 0x4e0811a1) == 0x50be291c
    ensures Circular(0x50be291c, 21) == 0x238a17c5 && Plus(0x4f9dbe3f, 0x238a17c5) == 0x7327d604
    ensures I(0x7327d604, 0x4f9dbe3f, 0x094454ab) == 0xb822416b && Sum(0x7f81cc35, 0xb822416b, 0, 0xf7537e82) == 0x2ef78c22
    ensures Circular(0x2ef78c22, 6) == 0xbde3088b && Plus(0x7327d604, 0xbde3088b) == 0x310ade8f
    ensures I(0x310ade8f, 0x7327d604, 0x4f9dbe3f) == 0xc24d09cb && Sum(0x094454ab, 0xc24d09cb, 0, 0xbd3af235) == 0x88cc50ab
    ensures Circular(0x88cc50ab, 10) == 0x3142ae23 && Plus(0x310ade8f, 0x3142ae23) == 0x624d8cb2
    ensures I(0x624d8cb2, 0x310ade8f, 0x7327d604) == 0xdfd77374 && Sum(0x4f9dbe3f, 0xdfd77374, 0, 0x2ad7d2bb) == 0x5a4d046e
    ensures Circular(0x5a4d046e, 15) == 0x82372d26 && Plus(0x624d8cb2, 0x82372d26) == 0xe484b9d8
    ensures I(0xe484b9d8, 0x624d8cb2, 0x310ade8f) == 0x8cb8354a && Sum(0x7327d604, 0x8cb8354a, 0, 0xeb86d391) == 0xeb66dedf
    ensures Circular(0xeb66dedf, 21) == 0xdbfd6cdb && Plus(0xe484b9d8, 0xdbfd6cdb) == 0xc08226b3
  {
  }

  lemma Round4(xs: seq<Word>)
    requires xs == Inputs(ABC_WORDS)
    requires MovingSteps(Operation, INIT, xs, MD5_K, 48) == Registers(0x7f2e507b, 0x7beb9700, 0x8fae6399, 0x99d9679d)
    ensures MovingSteps(Operation, INIT, xs, MD5_K, 64) == Registers(0x310ade8f, 0xc08226b3, 0xe484b9d8, 0x624d8cb2)
  {
    Tables4(xs);
    Values4();
    var r := Registers(0x7f2e507b, 0x7beb9700, 0x8fae6399, 0x99d9679d);
    r := Next(xs, 48, r, 0xf041fcfb, 0xe3fcd21b, 0xff3486f8, 0x7b201df8);
    r := Next(xs, 49, r, 0x009a0afe, 0xdd9e7232, 0x79c8cb76, 0xf4e8e96e);
    r := Next(xs, 50, r, 0x8fdcf407, 0xcb1f7b5f, 0xbdafe58f, 0xb298cefd);
    r := Next(xs, 51, r, 0x42370791, 0xbab63eca, 0xd95756c7, 0x8bf025c4);
    r := Next(xs, 52, r, 0x396ff928, 0x19eb70e3, 0x7adc38c6, 0x06cc5e8a);
    r := Next(xs, 53, r, 0xc41f5a4e, 0x4815104e, 0x54413920, 0x5b0d97aa);
    r := Next(xs, 54, r, 0x79c38131, 0x2c4c44ab, 0x22559626, 0x7d632dd0);
    r := Next(xs, 55, r, 0xa67e3a5f, 0xb7f2bdf4, 0xbe96fe57, 0x3bfa2c27);
    r := Next(xs, 56, r, 0xc29941a7, 0x390e1e80, 0x4387a00e, 0x7f81cc35);
    r := Next(xs, 57, r, 0xc467f218, 0x1da270a2, 0x89c28876, 0x094454ab);
    r := Next(xs, 58, r, 0xb2c41bce, 0xd3288cb2, 0x46596994, 0x4f9dbe3f);
    r := Next(xs, 59, r, 0xc6bbeb54, 0x50be291c, 0x238a17c5, 0x7327d604);
    r := Next(xs, 60, r, 0xb822416b, 0x2ef78c22, 0xbde3088b, 0x310ade8f);
    r := Next(xs, 61, r, 0xc24d09cb, 0x88cc50ab, 0x3142ae23, 0x624d8cb2);
    r := Next(xs, 62, r, 0xdfd77374, 0x5a4d046e, 0x82372d26, 0xe484b9d8);
    r := Next(xs, 63, r, 0x8cb8354a, 0xeb66dedf, 0xdbfd6cdb, 0xc08226b3);
  }

  lemma AbcSums()
    ensures AddTo(INIT, Registers(0x310ade8f, 0xc08226b3, 0xe484b9d8, 0x624d8cb2))
         == Registers(0x98500190, 0xb04fd23c, 0x7d3f96d6, 0x727fe128)
  {
  }

  lemma AbcTransform()
    ensures Transform(INIT, ABC_WORDS) == Registers(0x98500190, 0xb04fd23c, 0x7d3f96d6, 0x727fe128)
  {
    var xs := Inputs(ABC_WORDS);
    Round1(xs);
    Round2(xs);
    Round3(xs);
    Round4(xs);
    MovingIsFixed(Operation, INIT, xs, MD5_K, 64);
    AbcSums();
  }

  lemma AbcOutput()
    ensures Output(Registers(0x98500190, 0xb04fd23c, 0x7d3f96d6, 0x727fe128))
         == [0x90, 0x01, 0x50, 0x98] + [0x3c, 0xd2, 0x4f, 0xb0] + [0xd6, 0x96, 0x3f, 0x7d] + [0x28, 0xe1, 0x7f, 0x72]
  {
    FinalA();
    FinalB();
    FinalC();
    FinalD();
    OutputIs(Registers(0x98500190, 0xb04fd23c, 0x7d3f96d6, 0x727fe128),
             [0x90, 0x01, 0x50, 0x98], [0x3c, 0xd2, 0x4f, 0xb0], [0xd6, 0x96, 0x3f, 0x7d], [0x28, 0xe1, 0x7f, 0x72]);
  }

  lemma AbcCompress(block: seq<Byte>)
    requires block == ABC + [0x80] + Zeros(52) + LeBytes(24, 8)
    ensures Compress(INIT, block) == Registers(0x98500190, 0xb04fd23c, 0x7d3f96d6, 0x727fe128)
  {
    AbcWords(block);
    AbcTransform();
  }

  lemma AbcIsOneBlock<S>(f: (S, seq<Byte>) -> S, s: S)
    ensures Final(f, s, ABC) == f(s, ABC + [0x80] + Zeros(52) + LeBytes(24, 8))
  {
    FinalOneBlock(f, s, ABC, 0);
    assert ABC[0..] == ABC;
  }

  lemma AbcFinal()
    ensures Final(Compress, INIT, ABC) == Registers(0x98500190, 0xb04fd23c, 0x7d3f96d6, 0x727fe128)
  {
    AbcIsOneBlock(Compress, INIT);
    AbcCompress(ABC + [0x80] + Zeros(52) + LeBytes(24, 8));
  }

  /** The digest of "abc". */
  lemma AbcDigest()
    ensures Digest(ABC)
         == [0x90, 0x01, 0x50, 0x98] + [0x3c, 0xd2, 0x4f, 0xb0] + [0xd6, 0x96, 0x3f, 0x7d] + [0x28, 0xe1, 0x7f, 0x72]
  {
    AbcFinal();
    AbcOutput();
  }
}
