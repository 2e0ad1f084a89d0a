/** Bytes as numbers and words as bit vectors, related bit by bit. */
module WordBytes {
  import opened Basics

  /** The value of the low-order byte of a word. */
  function ToByte(w: Word): Byte {
    (if w & 1 != 0 then 1 else 0) + (if w & 2 != 0 then 2 else 0) + (if w & 4 != 0 then 4 else 0)
    + (if w & 8 != 0 then 8 else 0) + (if w & 16 != 0 then 16 else 0) + (if w & 32 != 0 then 32 else 0)
    + (if w & 64 != 0 then 64 else 0) + (if w & 128 != 0 then 128 else 0)
  }

  lemma SameByte(w: Word, v: Word)
    requires w <= 0xff && v <= 0xff && ToByte(w) == ToByte(v)
    ensures w == v
  {
  }

  lemma LowByteOnly(w: Word, v: Word)
    requires w & 0xff == v
    ensures ToByte(w) == ToByte(v)
  {
  }

  /** A byte from its upper seven bits and its lowest. */
  lemma Doubled(w: Word, low: bool)
    requires w <= 0x7f
    ensures var v := (w << 1) | (if low then 1 else 0);
      v <= 0xff && ToByte(v) == 2 * ToByte(w) + if low then 1 else 0
  {
  }

  lemma HalfByte(w: Word, k: nat)
    requires w <= 0xff && ToByte(w) < 128
    ensures w <= 0x7f
  {
  }

  function FromNat(n: nat): (w: Word)
    requires n < 256
    ensures w <= 0xff && ToByte(w) == n
  {
    if n == 0 then 0
    else
      var half := FromNat(n / 2);
      HalfByte(half, n);
      Doubled(half, n % 2 == 1);
      (half << 1) | (if n % 2 == 1 then 1 else 0)
  }

  /** The word that has a byte's value. */
  function FromByte(b: Byte): (w: Word)
    ensures w <= 0xff && ToByte(w) == b
  {
    FromNat(b)
  }

  function Joined(x0: Word, x1: Word, x2: Word, x3: Word): Word {
    x0 | (x1 << 8) | (x2 << 16) | (x3 << 24)
  }

  /** A word from four bytes, low-order byte first. */
  function Le(b0: Byte, b1: Byte, b2: Byte, b3: Byte): Word {
    Joined(FromByte(b0), FromByte(b1), FromByte(b2), FromByte(b3))
  }

  /** The four bytes of a word, low-order byte first. */
  function Bytes(w: Word): (r: seq<Byte>)
    ensures |r| == 4
  {
    [ToByte(w), ToByte(w >> 8), ToByte(w >> 16), ToByte(w >> 24)]
  }

  lemma JoinedParts(x0: Word, x1: Word, x2: Word, x3: Word, w: Word)
    requires w == Joined(x0, x1, x2, x3) && x0 <= 0xff && x1 <= 0xff && x2 <= 0xff && x3 <= 0xff
    ensures w & 0xff == x0 && (w >> 8) & 0xff == x1 && (w >> 16) & 0xff == x2 && (w >> 24) & 0xff == x3
  {
  }

  lemma JoinedBytes(x0: Word, x1: Word, x2: Word, x3: Word, w: Word)
    requires w == Joined(x0, x1, x2, x3) && x0 <= 0xff && x1 <= 0xff && x2 <= 0xff && x3 <= 0xff
    ensures ToByte(w) == ToByte(x0) && ToByte(w >> 8) == ToByte(x1)
    ensures ToByte(w >> 16) == ToByte(x2) && ToByte(w >> 24) == ToByte(x3)
  {
    JoinedParts(x0, x1, x2, x3, w);
    LowByteOnly(w, x0);
    LowByteOnly(w >> 8, x1);
    LowByteOnly(w >> 16, x2);
    LowByteOnly(w >> 24, x3);
  }

  lemma BytesAre(w: Word, x0: Word, x1: Word, x2: Word, x3: Word)
    requires ToByte(w) == ToByte(x0) && ToByte(w >> 8) == ToByte(x1)
    requires ToByte(w >> 16) == ToByte(x2) && ToByte(w >> 24) == ToByte(x3)
    ensures Bytes(w) == [ToByte(x0), ToByte(x1), ToByte(x2), ToByte(x3)]
  {
  }

  /** Byte j of the word has weight 256^j: it is the low-order byte after j shifts by eight. */
  lemma LeBytesBack(b0: Byte, b1: Byte, b2: Byte, b3: Byte)
    ensures Bytes(Le(b0, b1, b2, b3)) == [b0, b1, b2, b3]
  {
    var x0, x1, x2, x3 := FromByte(b0), FromByte(b1), FromByte(b2), FromByte(b3);
    var w := Joined(x0, x1, x2, x3);
    JoinedBytes(x0, x1, x2, x3, w);
    BytesAre(w, x0, x1, x2, x3);
  }

  /** A word is what its bytes say. */
  lemma LeOf(b0: Byte, b1: Byte, b2: Byte, b3: Byte, x0: Word, x1: Word, x2: Word, x3: Word)
    requires x0 <= 0xff && x1 <= 0xff && x2 <= 0xff && x3 <= 0xff
    requires ToByte(x0) == b0 && ToByte(x1) == b1 && ToByte(x2) == b2 && ToByte(x3) == b3
    ensures Le(b0, b1, b2, b3) == Joined(x0, x1, x2, x3)
  {
    SameByte(x0, FromByte(b0));
    SameByte(x1, FromByte(b1));
    SameByte(x2, FromByte(b2));
    SameByte(x3, FromByte(b3));
  }
}

/** MD5 as ext/frlib/lib/base/md5sum.c computes it, against RFC 1321 as a whole: the block transform
    of Md5Block under the padding and folding of BlockHash. */
module Md5 {
  import opened Basics
  import opened WordBytes
  import opened BlockHash
  import opened Md5Block

  function Decode(block: seq<Byte>): (words: seq<Word>)
    requires |block| == 64
    ensures |words| == 16
  {
    seq(16, (i: int) requires 0 <= i < 16 => Le(block[4 * i], block[4 * i + 1], block[4 * i + 2], block[4 * i + 3]))
  }

  /** The transform of section 3.4 on the bytes of a block. */
  function Compress(r: Abcd, block: seq<Byte>): Abcd {
    if |block| == 64 then Transform(r, Decode(block)) else r
  }

  function Output(r: Abcd): seq<Byte> {
    Bytes(r.a) + Bytes(r.b) + Bytes(r.c) + Bytes(r.d)
  }

  /** The message digest of RFC 1321. */
  function Digest(msg: seq<Byte>): seq<Byte> {
    Output(Final(Compress, INIT, msg))
  }

  /** doround on the bytes of a block, as a function. */
  function CodeBlock(r: Abcd, block: seq<Byte>): Abcd {
    if |block| == 64 then CodeTransform(r, Decode(block)) else r
  }

  lemma CodeBlockIsCompress(r: Abcd, block: seq<Byte>)
    ensures CodeBlock(r, block) == Compress(r, block)
  {
    if |block| == 64 { CodeIsTransform(r, Decode(block)); }
  }

  /** A digest made with doround is the digest of RFC 1321. */
  lemma CodeDigest(msg: seq<Byte>)
    ensures Final(CodeBlock, INIT, msg) == Final(Compress, INIT, msg)
  {
    forall r, block ensures CodeBlock(r, block) == Compress(r, block) { CodeBlockIsCompress(r, block); }
    SameFinal(CodeBlock, Compress, INIT, msg);
  }

  /** doround on the bytes of a buffer. */
  method RunBlock(r: Abcd, block: seq<Byte>) returns (r': Abcd)
    requires |block| == 64
    ensures r' == CodeBlock(r, block) == Compress(r, block)
  {
    CodeBlockIsCompress(r, block);
    r' := DoRound(r, Decode(block));
  }

  /** md5sum: the digest in one call, with doround on every block. */
  method Md5Sum(msg: seq<Byte>) returns (hash: seq<Byte>)
    ensures hash == Digest(msg)
  {
    var r := OneShot(CodeBlock, INIT, msg);
    CodeDigest(msg);
    hash := Output(r);
  }

  /** md5sum_calc on the pieces of a message and then md5sum_get, with doround on every block: the
      same digest, however the message was cut. */
  method Md5InPieces(pieces: seq<seq<Byte>>) returns (hash: seq<Byte>)
    ensures hash == Digest(Flatten(pieces))
  {
    var r := InPieces(CodeBlock, INIT, pieces);
    CodeDigest(Flatten(pieces));
    hash := Output(r);
  }
}
