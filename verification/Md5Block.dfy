/** The register machine of MD5, over any kind of word and any operation on words.

    RFC 1321 names the four registers in rotation ([ABCD], [DABC], [CDAB], [BCDA]) and changes one
    of them in place; the program moves the values on by one register and always computes b. */
module Md5Machine {

  datatype Registers<W> = Registers(a: W, b: W, c: W, d: W)

  /** Operation j in place, as section 3.4 of RFC 1321 lists them; op gives the register's new value. */
  function FixedStep<W>(op: (nat, W, W, W, W, W, W) -> W, r: Registers<W>, j: nat, x: W, t: W): Registers<W> {
    if j % 4 == 0 then r.(a := op(j, r.a, r.b, r.c, r.d, x, t))
    else if j % 4 == 1 then r.(d := op(j, r.d, r.a, r.b, r.c, x, t))
    else if j % 4 == 2 then r.(c := op(j, r.c, r.d, r.a, r.b, x, t))
    else r.(b := op(j, r.b, r.c, r.d, r.a, x, t))
  }

  function FixedSteps<W>(op: (nat, W, W, W, W, W, W) -> W, r: Registers<W>, xs: seq<W>, ts: seq<W>, n: nat): Registers<W>
    requires n <= |xs| && n <= |ts|
  {
    if n == 0 then r else FixedStep(op, FixedSteps(op, r, xs, ts, n - 1), n - 1, xs[n - 1], ts[n - 1])
  }

  /** The ROUND macro: the registers move on by one and b gets the new value. */
  function MovingStep<W>(op: (nat, W, W, W, W, W, W) -> W, m: Registers<W>, j: nat, x: W, t: W): Registers<W> {
    Registers(m.d, op(j, m.a, m.b, m.c, m.d, x, t), m.b, m.c)
  }

  function MovingSteps<W>(op: (nat, W, W, W, W, W, W) -> W, r: Registers<W>, xs: seq<W>, ts: seq<W>, n: nat): Registers<W>
    requires n <= |xs| && n <= |ts|
  {
    if n == 0 then r else MovingStep(op, MovingSteps(op, r, xs, ts, n - 1), n - 1, xs[n - 1], ts[n - 1])
  }

  /** Which of the fixed registers the moving a, b, c, d are before operation j. */
  function Roles<W>(r: Registers<W>, j: nat): Registers<W> {
    if j % 4 == 0 then r
    else if j % 4 == 1 then Registers(r.d, r.a, r.b, r.c)
    else if j % 4 == 2 then Registers(r.c, r.d, r.a, r.b)
    else Registers(r.b, r.c, r.d, r.a)
  }

  /** The moving registers hold the fixed ones in rotation; after every fourth operation they agree. */
  lemma {:induction false} MovingIsFixed<W>(op: (nat, W, W, W, W, W, W) -> W, r: Registers<W>,
                                            xs: seq<W>, ts: seq<W>, n: nat)
    requires n <= |xs| && n <= |ts|
    ensures MovingSteps(op, r, xs, ts, n) == Roles(FixedSteps(op, r, xs, ts, n), n)
  {
    if n > 0 { MovingIsFixed(op, r, xs, ts, n - 1); }
  }

  /** Operations that agree everywhere run alike. */
  lemma {:induction false} SameOperations<W(!new)>(op: (nat, W, W, W, W, W, W) -> W, op': (nat, W, W, W, W, W, W) -> W,
                                                   r: Registers<W>, xs: seq<W>, ts: seq<W>, n: nat)
    requires n <= |xs| && n <= |ts|
    requires forall j: nat, a, b, c, d, x, t :: j < n ==> op(j, a, b, c, d, x, t) == op'(j, a, b, c, d, x, t)
    ensures MovingSteps(op, r, xs, ts, n) == MovingSteps(op', r, xs, ts, n)
  {
    if n > 0 { SameOperations(op, op', r, xs, ts, n - 1); }
  }
}

/** The MD5 block transform of ext/frlib/lib/base/md5sum.c against section 3.4 of RFC 1321. */
module Md5Block {
  import opened Basics
  import opened Md5Machine

  type Abcd = Registers<Word>

  const INIT: Abcd := Registers(0x67452301, 0xefcdab89, 0x98badcfe, 0x10325476)

  /** The sine table T, one row per round, common to both sides. */
  const SINES1: seq<Word> := [
    0xd76aa478, 0xe8c7b756, 0x242070db, 0xc1bdceee,
    0xf57c0faf, 0x4787c62a, 0xa8304613, 0xfd469501,
    0x698098d8, 0x8b44f7af, 0xffff5bb1, 0x895cd7be,
    0x6b901122, 0xfd987193, 0xa679438e, 0x49b40821]
  const SINES2: seq<Word> := [
    0xf61e2562, 0xc040b340, 0x265e5a51, 0xe9b6c7aa,
    0xd62f105d, 0x02441453, 0xd8a1e681, 0xe7d3fbc8,
    0x21e1cde6, 0xc33707d6, 0xf4d50d87, 0x455a14ed,
    0xa9e3e905, 0xfcefa3f8, 0x676f02d9, 0x8d2a4c8a]
  const SINES3: seq<Word> := [
    0xfffa3942, 0x8771f681, 0x6d9d6122, 0xfde5380c,
    0xa4beea44, 0x4bdecfa9, 0xf6bb4b60, 0xbebfbc70,
    0x289b7ec6, 0xeaa127fa, 0xd4ef3085, 0x04881d05,
    0xd9d4d039, 0xe6db99e5, 0x1fa27cf8, 0xc4ac5665]
  const SINES4: seq<Word> := [
    0xf4292244, 0x432aff97, 0xab9423a7, 0xfc93a039,
    0x655b59c3, 0x8f0ccc92, 0xffeff47d, 0x85845dd1,
    0x6fa87e4f, 0xfe2ce6e0, 0xa3014314, 0x4e0811a1,
    0xf7537e82, 0xbd3af235, 0x2ad7d2bb, 0xeb86d391]

  const MD5_K: seq<Word> := SINES1 + SINES2 + SINES3 + SINES4

  /** Addition modulo 2^32. */
  function Plus(x: Word, y: Word): Word {
    x + y
  }

  function Sum(a: Word, f: Word, x: Word, t: Word): Word {
    a + f + x + t
  }

  // --- the transform as section 3.4 of RFC 1321 gives it ---

  function F(x: Word, y: Word, z: Word): Word { (x & y) | (!x & z) }

  function G(x: Word, y: Word, z: Word): Word { (x & z) | (y & !z) }

  function H(x: Word, y: Word, z: Word): Word { x ^ y ^ z }

  function I(x: Word, y: Word, z: Word): Word { y ^ (x | !z) }

  function RoundFunction(j: nat, x: Word, y: Word, z: Word): Word {
    if j < 16 then F(x, y, z) else if j < 32 then G(x, y, z) else if j < 48 then H(x, y, z) else I(x, y, z)
  }

  /** The word of the block used by each operation, as listed for the four rounds. */
  const ROUND1_K: seq<nat> := [0, 1, 2, 3, 4, 5, 6, 7, 8, 9, 10, 11, 12, 13, 14, 15]
  const ROUND2_K: seq<nat> := [1, 6, 11, 0, 5, 10, 15, 4, 9, 14, 3, 8, 13, 2, 7, 12]
  const ROUND3_K: seq<nat> := [5, 8, 11, 14, 1, 4, 7, 10, 13, 0, 3, 6, 9, 12, 15, 2]
  const ROUND4_K: seq<nat> := [0, 7, 14, 5, 12, 3, 10, 1, 8, 15, 6, 13, 4, 11, 2, 9]

  function RfcWord(j: nat): nat
    requires j < 64
  {
    if j < 16 then ROUND1_K[j] else if j < 32 then ROUND2_K[j - 16]
    else if j < 48 then ROUND3_K[j - 32] else ROUND4_K[j - 48]
  }

  /** The shift of each operation: four per round, used in turn. */
  function RfcShift(j: nat): nat {
    if j < 16 then (if j % 4 == 0 then 7 else if j % 4 == 1 then 12 else if j % 4 == 2 then 17 else 22)
    else if j < 32 then (if j % 4 == 0 then 5 else if j % 4 == 1 then 9 else if j % 4 == 2 then 14 else 20)
    else if j < 48 then (if j % 4 == 0 then 4 else if j % 4 == 1 then 11 else if j % 4 == 2 then 16 else 23)
    else (if j % 4 == 0 then 6 else if j % 4 == 1 then 10 else if j % 4 == 2 then 15 else 21)
  }

  /** X <<< n for the sixteen amounts that occur. */
  function Circular(x: Word, n: nat): Word {
    if n == 4 then x.RotateLeft(4) else if n == 5 then x.RotateLeft(5) else if n == 6 then x.RotateLeft(6) else
    if n == 7 then x.RotateLeft(7) else if n == 9 then x.RotateLeft(9) else if n == 10 then x.RotateLeft(10) else
    if n == 11 then x.RotateLeft(11) else if n == 12 then x.RotateLeft(12) else if n == 14 then x.RotateLeft(14) else
    if n == 15 then x.RotateLeft(15) else if n == 16 then x.RotateLeft(16) else if n == 17 then x.RotateLeft(17) else
    if n == 20 then x.RotateLeft(20) else if n == 21 then x.RotateLeft(21) else if n == 22 then x.RotateLeft(22) else
    x.RotateLeft(23)
  }

  /** b + ((a + f(b, c, d) + X[k] + T[i]) <<< s). */
  function Operation(j: nat, a: Word, b: Word, c: Word, d: Word, x: Word, t: Word): Word {
    Plus(b, Circular(Sum(a, RoundFunction(j, b, c, d), x, t), RfcShift(j)))
  }

  /** The words of a block in the order in which the 64 operations use them. */
  function Inputs(words: seq<Word>): seq<Word>
    requires |words| == 16
  {
    seq(64, (j: int) requires 0 <= j < 64 => WordIndex(j); words[RfcWord(j)])
  }

  /** The registers after one 16-word block. */
  function Transform(r: Abcd, words: seq<Word>): Abcd
    requires |words| == 16
  {
    AddTo(r, FixedSteps(Operation, r, Inputs(words), MD5_K, |MD5_K|))
  }

  function AddTo(r: Abcd, s: Abcd): Abcd {
    Registers(Plus(r.a, s.a), Plus(r.b, s.b), Plus(r.c, s.c), Plus(r.d, s.d))
  }

  // --- the transform as doround computes it ---

  /** md5_s, one row per round. */
  const ROW1_S: seq<nat> := [7, 12, 17, 22, 7, 12, 17, 22, 7, 12, 17, 22, 7, 12, 17, 22]
  const ROW2_S: seq<nat> := [5, 9, 14, 20, 5, 9, 14, 20, 5, 9, 14, 20, 5, 9, 14, 20]
  const ROW3_S: seq<nat> := [4, 11, 16, 23, 4, 11, 16, 23, 4, 11, 16, 23, 4, 11, 16, 23]
  const ROW4_S: seq<nat> := [6, 10, 15, 21, 6, 10, 15, 21, 6, 10, 15, 21, 6, 10, 15, 21]

  function ShiftOf(j: nat): nat
    requires j < 64
  {
    if j < 16 then ROW1_S[j] else if j < 32 then ROW2_S[j - 16] else if j < 48 then ROW3_S[j - 32] else ROW4_S[j - 48]
  }

  predicate Below16(i: int) {
    i == 0 || i == 1 || i == 2 || i == 3 || i == 4 || i == 5 || i == 6 || i == 7
    || i == 8 || i == 9 || i == 10 || i == 11 || i == 12 || i == 13 || i == 14 || i == 15
  }

  lemma ShiftRows(i: nat)
    requires i < 16
    ensures ROW1_S[i] == RfcShift(i) && ROW2_S[i] == RfcShift(16 + i)
    ensures ROW3_S[i] == RfcShift(32 + i) && ROW4_S[i] == RfcShift(48 + i)
  {
    assert Below16(i);
  }

  lemma ShiftTable(j: nat)
    requires j < 64
    ensures ShiftOf(j) == RfcShift(j)
  {
    ShiftRows(if j < 16 then j else if j < 32 then j - 16 else if j < 48 then j - 32 else j - 48);
  }

  /** The computed index g. */
  function WordOf(j: nat): (g: nat)
    ensures g < 16
  {
    if j < 16 then j else if j < 32 then (5 * j + 1) % 16 else if j < 48 then (3 * j + 5) % 16 else (7 * j) % 16
  }

  lemma Round2Index(i: nat)
    requires i < 16
    ensures ROUND2_K[i] == (5 * (16 + i) + 1) % 16
  {
  }

  lemma Round3Index(i: nat)
    requires i < 16
    ensures ROUND3_K[i] == (3 * (32 + i) + 5) % 16
  {
  }

  lemma Round4Index(i: nat)
    requires i < 16
    ensures ROUND4_K[i] == (7 * (48 + i)) % 16
  {
  }

  /** The computed index is the listed one. */
  lemma WordIndex(j: nat)
    requires j < 64
    ensures RfcWord(j) == WordOf(j)
  {
    if j < 16 { assert Below16(j); }
    else if j < 32 { Round2Index(j - 16); }
    else if j < 48 { Round3Index(j - 32); }
    else { Round4Index(j - 48); }
  }

  lemma FasXor(b: Word, c: Word, d: Word)
    ensures d ^ (b & (c ^ d)) == F(b, c, d)
  {
  }

  lemma GasXor(b: Word, c: Word, d: Word)
    ensures c ^ (d & (b ^ c)) == G(b, c, d)
  {
  }

  /** LEFTROT32 for the same amounts. */
  function LeftRot(x: Word, n: nat): Word {
    if n == 4 then (x << 4) | (x >> 28) else if n == 5 then (x << 5) | (x >> 27) else if n == 6 then (x << 6) | (x >> 26) else
    if n == 7 then (x << 7) | (x >> 25) else if n == 9 then (x << 9) | (x >> 23) else if n == 10 then (x << 10) | (x >> 22) else
    if n == 11 then (x << 11) | (x >> 21) else if n == 12 then (x << 12) | (x >> 20) else if n == 14 then (x << 14) | (x >> 18) else
    if n == 15 then (x << 15) | (x >> 17) else if n == 16 then (x << 16) | (x >> 16) else if n == 17 then (x << 17) | (x >> 15) else
    if n == 20 then (x << 20) | (x >> 12) else if n == 21 then (x << 21) | (x >> 11) else if n == 22 then (x << 22) | (x >> 10) else
    (x << 23) | (x >> 9)
  }

  lemma LeftRotIsCircular(x: Word, n: nat)
    ensures LeftRot(x, n) == Circular(x, n)
  {
  }

  /** The rewritten round functions. */
  function CodeFunction(j: nat, b: Word, c: Word, d: Word): Word {
    if j < 16 then d ^ (b & (c ^ d))
    else if j < 32 then c ^ (d & (b ^ c))
    else if j < 48 then b ^ c ^ d
    else c ^ (b | !d)
  }

  lemma FunctionsAgree(j: nat, b: Word, c: Word, d: Word)
    ensures CodeFunction(j, b, c, d) == RoundFunction(j, b, c, d)
  {
    if j < 16 {
      FunctionsAgreeF(j, b, c, d);
    } else if j < 32 {
      FunctionsAgreeG(j, b, c, d);
    }
  }

  lemma FunctionsAgreeF(j: nat, b: Word, c: Word, d: Word)
    requires j < 16
    ensures CodeFunction(j, b, c, d) == RoundFunction(j, b, c, d)
  {
    FasXor(b, c, d);
  }

  lemma FunctionsAgreeG(j: nat, b: Word, c: Word, d: Word)
    requires 16 <= j < 32
    ensures CodeFunction(j, b, c, d) == RoundFunction(j, b, c, d)
  {
    GasXor(b, c, d);
  }

  /** What the ROUND macro puts into b. */
  function CodeOperation(j: nat, a: Word, b: Word, c: Word, d: Word, x: Word, t: Word): Word {
    Plus(b, LeftRot(Sum(a, CodeFunction(j, b, c, d), t, x), if j < 64 then ShiftOf(j) else 23))
  }

  lemma OperationsAgree(j: nat, a: Word, b: Word, c: Word, d: Word, x: Word, t: Word)
    requires j < 64
    ensures CodeOperation(j, a, b, c, d, x, t) == Operation(j, a, b, c, d, x, t)
  {
    FunctionsAgree(j, b, c, d);
    ShiftTable(j);
    var f := RoundFunction(j, b, c, d);
    AddOrder(a, f, x, t);
    LeftRotIsCircular(Sum(a, f, x, t), ShiftOf(j));
  }

  lemma AddOrder(a: Word, f: Word, x: Word, t: Word)
    ensures Sum(a, f, t, x) == Sum(a, f, x, t)
  {
  }

  /** The words in the order of the computed index. */
  function CodeInputs(words: seq<Word>): seq<Word>
    requires |words| == 16
  {
    seq(64, (j: int) requires 0 <= j < 64 => words[WordOf(j)])
  }

  /** What doround computes: the moving registers, the rewritten functions, the computed index. */
  function CodeTransform(r: Abcd, words: seq<Word>): Abcd
    requires |words| == 16
  {
    AddTo(r, MovingSteps(CodeOperation, r, CodeInputs(words), MD5_K, |MD5_K|))
  }

  lemma SameInputs(words: seq<Word>)
    requires |words| == 16
    ensures CodeInputs(words) == Inputs(words)
  {
    forall j | 0 <= j < 64 ensures CodeInputs(words)[j] == Inputs(words)[j] {
      WordIndex(j);
    }
  }

  /** It is the transform of RFC 1321. */
  lemma CodeIsTransform(r: Abcd, words: seq<Word>)
    requires |words| == 16
    ensures CodeTransform(r, words) == Transform(r, words)
  {
    var xs := Inputs(words);
    SameInputs(words);
    forall j: nat, a, b, c, d, x, t | j < 64
      ensures CodeOperation(j, a, b, c, d, x, t) == Operation(j, a, b, c, d, x, t)
    {
      OperationsAgree(j, a, b, c, d, x, t);
    }
    SameOperations(CodeOperation, Operation, r, xs, MD5_K, |MD5_K|);
    MovingIsFixed(Operation, r, xs, MD5_K, |MD5_K|);
  }

  /** doround, on registers and a block of 16 words. */
  method DoRound(r: Abcd, words: seq<Word>) returns (r': Abcd)
    requires |words| == 16
    ensures r' == CodeTransform(r, words) == Transform(r, words)
  {
    CodeIsTransform(r, words);
    var m := FourRounds(r, words, MD5_K);
    r' := AddTo(r, m);
  }

  method FourRounds(r: Abcd, words: seq<Word>, t: seq<Word>) returns (m: Abcd)
    requires |words| == 16 && |t| == 64
    ensures m == MovingSteps(CodeOperation, r, CodeInputs(words), t, |t|)
  {
    ghost var xs := CodeInputs(words);
    m := r;
    var i := 0;
    while i < 16
      invariant i <= 16 && m == MovingSteps(CodeOperation, r, xs, t, i)
    {
      m := Round1(m, i, words[i], t[i]);
      i := i + 1;
    }
    while i < 32
      invariant 16 <= i <= 32 && m == MovingSteps(CodeOperation, r, xs, t, i)
    {
      var g := (5 * i + 1) % 16;
      m := Round2(m, i, words[g], t[i]);
      i := i + 1;
    }
    while i < 48
      invariant 32 <= i <= 48 && m == MovingSteps(CodeOperation, r, xs, t, i)
    {
      var g := (3 * i + 5) % 16;
      m := Round3(m, i, words[g], t[i]);
      i := i + 1;
    }
    while i < 64
      invariant 48 <= i <= 64 && m == MovingSteps(CodeOperation, r, xs, t, i)
    {
      var g := (7 * i) % 16;
      m := Round4(m, i, words[g], t[i]);
      i := i + 1;
    }
  }

  /** The ROUND macro, with f as the caller computed it. */
  method Round(m: Abcd, i: nat, f: Word, x: Word, t: Word) returns (m': Abcd)
    requires i < 64 && f == CodeFunction(i, m.b, m.c, m.d)
    ensures m' == MovingStep(CodeOperation, m, i, x, t)
  {
    var t1, t2 := m.d, Sum(m.a, f, t, x);
    m' := Registers(t1, Plus(m.b, LeftRot(t2, ShiftOf(i))), m.b, m.c);
  }

  method Round1(m: Abcd, i: nat, x: Word, t: Word) returns (m': Abcd)
    requires i < 16
    ensures m' == MovingStep(CodeOperation, m, i, x, t)
  {
    var f := m.d ^ (m.b & (m.c ^ m.d));
    m' := Round(m, i, f, x, t);
  }

  method Round2(m: Abcd, i: nat, x: Word, t: Word) returns (m': Abcd)
    requires 16 <= i < 32
    ensures m' == MovingStep(CodeOperation, m, i, x, t)
  {
    var f := m.c ^ (m.d & (m.b ^ m.c));
    m' := Round(m, i, f, x, t);
  }

  method Round3(m: Abcd, i: nat, x: Word, t: Word) returns (m': Abcd)
    requires 32 <= i < 48
    ensures m' == MovingStep(CodeOperation, m, i, x, t)
  {
    var f := m.b ^ m.c ^ m.d;
    m' := Round(m, i, f, x, t);
  }

  method Round4(m: Abcd, i: nat, x: Word, t: Word) returns (m': Abcd)
    requires 48 <= i < 64
    ensures m' == MovingStep(CodeOperation, m, i, x, t)
  {
    var f := m.c ^ (m.b | !m.d);
    m' := Round(m, i, f, x, t);
  }
}
