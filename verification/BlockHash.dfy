/** Hashing by 64-byte blocks as ext/frlib/lib/base/md5sum.c does it, once over a whole message and
    once over a message that comes in pieces, against the padding rule of sections 3.1 and 3.2 of
    RFC 1321.  The block transform is a parameter here. */
module BlockHash {
  import opened Basics

  // --- the definition ---

  /** n without its i low-order bytes. */
  function DropBytes(n: nat, i: nat): nat {
    if i == 0 then n else DropBytes(n, i - 1) / 256
  }

  /** The low-order k bytes of n, low-order byte first. */
  function LeBytes(n: nat, k: nat): (r: seq<Byte>)
    ensures |r| == k
  {
    seq(k, (i: int) requires 0 <= i < k => DropBytes(n, i) % 256)
  }

  /** The number of zeros that make the message, the one bit and they 56 modulo 64 long. */
  function ZeroCount(len: nat): nat {
    (119 - len % 64) % 64
  }

  /** A single one bit, zeros, and the length in bits modulo 2^64. */
  function Pad(msg: seq<Byte>): seq<Byte> {
    msg + [0x80] + Zeros(ZeroCount(|msg|)) + LeBytes(8 * |msg| % U64, 8)
  }

  /** The state after the first k blocks of data. */
  function Fold<S>(f: (S, seq<Byte>) -> S, s: S, data: seq<Byte>, k: nat): S
    requires 64 * k <= |data|
  {
    if k == 0 then s else f(Fold(f, s, data, k - 1), data[64 * (k - 1)..64 * k])
  }

  /** The state after the padded message. */
  function Final<S>(f: (S, seq<Byte>) -> S, s: S, msg: seq<Byte>): S {
    Fold(f, s, Pad(msg), |Pad(msg)| / 64)
  }

  /** Block functions that agree everywhere hash alike. */
  lemma {:induction false} SameFold<S(!new)>(f: (S, seq<Byte>) -> S, g: (S, seq<Byte>) -> S, s: S, data: seq<Byte>, k: nat)
    requires 64 * k <= |data| && forall r, block :: f(r, block) == g(r, block)
    ensures Fold(f, s, data, k) == Fold(g, s, data, k)
  {
    if k > 0 { SameFold(f, g, s, data, k - 1); }
  }

  lemma SameFinal<S(!new)>(f: (S, seq<Byte>) -> S, g: (S, seq<Byte>) -> S, s: S, msg: seq<Byte>)
    requires forall r, block :: f(r, block) == g(r, block)
    ensures Final(f, s, msg) == Final(g, s, msg)
  {
    SameFold(f, g, s, Pad(msg), |Pad(msg)| / 64);
  }

  /** The padded message is a whole number of blocks, and the fewest that hold the padding. */
  lemma PaddingFillsBlocks(msg: seq<Byte>)
    ensures |Pad(msg)| % 64 == 0 && |msg| + 9 <= |Pad(msg)| < |msg| + 9 + 64
  {
    var k := |msg| / 64;
    ZeroCountAt(|msg|, k);
    BlockCount(|Pad(msg)|, if |msg| < 64 * k + 56 then k + 1 else k + 2);
  }

  // --- splitting at a block boundary ---

  /** Blocks that are complete do not depend on what follows. */
  lemma {:induction false} FoldPrefix<S>(f: (S, seq<Byte>) -> S, s: S, a: seq<Byte>, b: seq<Byte>, k: nat)
    requires 64 * k <= |a|
    ensures Fold(f, s, a + b, k) == Fold(f, s, a, k)
  {
    if k > 0 {
      FoldPrefix(f, s, a, b, k - 1);
      assert (a + b)[64 * (k - 1)..64 * k] == a[64 * (k - 1)..64 * k];
    }
  }

  lemma FoldNext<S>(f: (S, seq<Byte>) -> S, s: S, a: seq<Byte>, block: seq<Byte>, k: nat)
    requires 64 * k == |a| && |block| == 64
    ensures Fold(f, s, a + block, k + 1) == f(Fold(f, s, a, k), block)
  {
    FoldPrefix(f, s, a, block, k);
    assert (a + block)[64 * k..64 * (k + 1)] == block;
  }

  lemma ZeroCountAt(len: nat, k: nat)
    requires 64 * k <= len < 64 * (k + 1)
    ensures ZeroCount(len) == if len < 64 * k + 56 then 64 * k + 55 - len else 64 * k + 119 - len
  {
  }

  lemma FinalAt<S>(f: (S, seq<Byte>) -> S, s: S, msg: seq<Byte>, n: nat)
    requires |Pad(msg)| == 64 * n
    ensures Final(f, s, msg) == Fold(f, s, Pad(msg), n)
  {
    BlockCount(|Pad(msg)|, n);
  }

  lemma BlockCount(len: nat, n: nat)
    requires len == 64 * n
    ensures len / 64 == n && len % 64 == 0
  {
  }

  lemma Regroup(a: seq<Byte>, b: seq<Byte>, c: seq<Byte>, d: seq<Byte>, e: seq<Byte>)
    ensures a + b + c + d + e == a + (b + c + d + e)
  {
  }

  /** Up to 55 bytes after the last complete block: the padding ends in one block. */
  lemma FinalOneBlock<S>(f: (S, seq<Byte>) -> S, s: S, msg: seq<Byte>, k: nat)
    requires 64 * k <= |msg| < 64 * k + 56
    ensures Final(f, s, msg)
         == f(Fold(f, s, msg, k),
              msg[64 * k..] + [0x80] + Zeros(64 * k + 55 - |msg|) + LeBytes(8 * |msg| % U64, 8))
  {
    var a, rest, len := msg[..64 * k], msg[64 * k..], LeBytes(8 * |msg| % U64, 8);
    var z := Zeros(64 * k + 55 - |msg|);
    ZeroCountAt(|msg|, k);
    assert msg == a + rest;
    Regroup(a, rest, [0x80], z, len);
    FinalAt(f, s, msg, k + 1);
    FoldNext(f, s, a, rest + [0x80] + z + len, k);
    FoldPrefix(f, s, a, rest, k);
  }

  /** From 56 bytes on it takes two. */
  lemma FinalTwoBlocks<S>(f: (S, seq<Byte>) -> S, s: S, msg: seq<Byte>, k: nat)
    requires 64 * k + 56 <= |msg| < 64 * (k + 1)
    ensures Final(f, s, msg)
         == f(f(Fold(f, s, msg, k), msg[64 * k..] + [0x80] + Zeros(64 * k + 63 - |msg|)),
              Zeros(56) + LeBytes(8 * |msg| % U64, 8))
  {
    var a, rest, len := msg[..64 * k], msg[64 * k..], LeBytes(8 * |msg| % U64, 8);
    var z := Zeros(64 * k + 63 - |msg|);
    ZeroCountAt(|msg|, k);
    assert Zeros(|z| + 56) == z + Zeros(56);
    assert msg == a + rest;
    var one, two := rest + [0x80] + z, Zeros(56) + len;
    assert Pad(msg) == a + one + two;
    FinalAt(f, s, msg, k + 2);
    FoldNext(f, s, a + one, two, k + 1);
    FoldNext(f, s, a, one, k);
    FoldPrefix(f, s, a, rest, k);
  }

  // --- the program's buffer ---

  /** memcpy into a buffer. */
  method CopyInto(buf: array<Byte>, at: nat, src: seq<Byte>)
    requires at + |src| <= buf.Length
    modifies buf
    ensures buf[..] == old(buf[..at]) + src + old(buf[at + |src|..])
  {
    forall i | 0 <= i < |src| { buf[at + i] := src[i]; }
  }

  /** Zeros from `from` up to `to`. */
  method FillZero(buf: array<Byte>, from: nat, to: nat)
    requires from <= to <= buf.Length
    modifies buf
    ensures buf[..] == old(buf[..from]) + Zeros(to - from) + old(buf[to..])
  {
    var i := from;
    while i < to
      invariant from <= i <= to
      invariant buf[..] == old(buf[..from]) + Zeros(i - from) + old(buf[i..])
    {
      buf[i] := 0;
      i := i + 1;
    }
  }

  /** The one bit behind what the buffer holds already, and zeros up to `to`. */
  method PadBuffer(buf: array<Byte>, used: nat, to: nat)
    requires used < to <= buf.Length
    modifies buf
    ensures buf[..] == old(buf[..used]) + [0x80] + Zeros(to - 1 - used) + old(buf[to..])
  {
    buf[used] := 0x80;
    assert buf[..used + 1] == old(buf[..used]) + [0x80];
    FillZero(buf, used + 1, to);
  }

  /** Padding and length behind the last `idx` bytes of msg, which are in the buffer. */
  method LastBlocks<S>(f: (S, seq<Byte>) -> S, ghost init: S, ghost msg: seq<Byte>, ghost k: nat,
                       buf: array<Byte>, s: S, idx: nat, msglen: nat)
      returns (s': S)
    requires buf.Length == 64 && 64 * k + idx == |msg| && idx < 64
    requires buf[..idx] == msg[64 * k..] && s == Fold(f, init, msg, k) && msglen == 8 * |msg| % U64
    modifies buf
    ensures s' == Final(f, init, msg)
  {
    ghost var rest := msg[64 * k..];
    s' := s;
    if idx + 1 > 56 {
      FinalTwoBlocks(f, init, msg, k);
      PadBuffer(buf, idx, 64);
      assert buf[..] == rest + [0x80] + Zeros(63 - idx);
      s' := f(s', buf[..]);
      FillZero(buf, 0, 56);
      CopyInto(buf, 56, LeBytes(msglen, 8));
      assert buf[..] == Zeros(56) + LeBytes(msglen, 8);
    } else {
      FinalOneBlock(f, init, msg, k);
      PadBuffer(buf, idx, 56);
      CopyInto(buf, 56, LeBytes(msglen, 8));
      assert buf[..] == rest + [0x80] + Zeros(55 - idx) + LeBytes(msglen, 8);
    }
    s' := f(s', buf[..]);
  }

  /** docalc: the whole message at once. */
  method OneShot<S>(f: (S, seq<Byte>) -> S, init: S, msg: seq<Byte>) returns (s: S)
    ensures s == Final(f, init, msg)
  {
    var buf := new Byte[64];
    s := init;
    var p: nat, mlen: nat := 0, |msg|;
    ghost var k := 0;
    while mlen >= 64
      invariant p + mlen == |msg| && p == 64 * k
      invariant s == Fold(f, init, msg, k)
    {
      CopyInto(buf, 0, msg[p..p + 64]);
      assert buf[..] == msg[p..p + 64];
      s := f(s, buf[..]);
      p, mlen, k := p + 64, mlen - 64, k + 1;
    }
    CopyInto(buf, 0, msg[p..]);
    assert buf[..mlen] == msg[p..];
    s := LastBlocks(f, init, msg, k, buf, s, mlen, |msg| * 8 % U64);
  }

  // --- the incremental interface ---

  /** Counting bytes in a uint64_t, */
  method AddLength(ghost q: nat, len: int, n: nat) returns (len': int)
    requires len == q % U64
    ensures len' == (q + n) % U64
  {
    ghost var k := q / U64;
    assert q == U64 * k + q % U64;
    len' := (len + n) % U64;
  }

  /** and turning the count into bits there. */
  method InBits(ghost q: nat, len: int) returns (bits: nat)
    requires len == q % U64
    ensures bits == 8 * q % U64
  {
    ghost var k := q / U64;
    assert q == U64 * k + q % U64;
    bits := len * 8 % U64;
  }

  class Context<S> {
    const f: (S, seq<Byte>) -> S
    ghost const init: S
    const buf: array<Byte>
    var idx: nat
    var s: S
    var msglen: int                 // uint64_t
    ghost var absorbed: seq<Byte>   // everything passed to Calc so far
    ghost var k: nat                // complete blocks in it

    /** Complete blocks are in the state, the rest of the message is in the buffer. */
    ghost predicate Valid()
      reads this, buf
    {
      && buf.Length == 64 && idx < 64 && 64 * k + idx == |absorbed|
      && buf[..idx] == absorbed[64 * k..] && s == Fold(f, init, absorbed, k) && msglen == 64 * k % U64
    }

    constructor (f: (S, seq<Byte>) -> S, init: S)
      ensures Valid() && fresh(buf) && absorbed == [] && this.f == f && this.init == init
    {
      this.f, this.init := f, init;
      buf := new Byte[64];
      idx, s, msglen, absorbed, k := 0, init, 0, [], 0;
    }

    /** Keep bytes that do not complete a block. */
    method Store(piece: seq<Byte>)
      requires Valid() && |piece| < 64 - idx
      modifies this`idx, this`absorbed, buf
      ensures Valid() && absorbed == old(absorbed) + piece
    {
      FoldPrefix(f, init, absorbed, piece, k);
      absorbed := absorbed + piece;
      CopyInto(buf, idx, piece);
      idx := idx + |piece|;
    }

    /** Complete the block in the buffer and run it through the transform. */
    method Complete(piece: seq<Byte>)
      requires Valid() && |piece| == 64 - idx
      modifies this`idx, this`s, this`msglen, this`absorbed, this`k, buf
      ensures Valid() && idx == 0 && absorbed == old(absorbed) + piece
    {
      FoldPrefix(f, init, absorbed, piece, k);
      absorbed := absorbed + piece;
      CopyInto(buf, idx, piece);
      assert buf[..] == absorbed[64 * k..64 * (k + 1)];
      s := f(s, buf[..]);
      msglen := AddLength(64 * k, msglen, 64);
      idx, k := 0, k + 1;
    }

    /** md5sum_calc. */
    method Calc(msg: seq<Byte>)
      requires Valid()
      modifies this`idx, this`s, this`msglen, this`absorbed, this`k, buf
      ensures Valid() && absorbed == old(absorbed) + msg
    {
      if |msg| < 64 - idx {
        Store(msg);
        return;
      }
      var p := 64 - idx;
      Complete(msg[..p]);
      while |msg| - p >= 64
        invariant p <= |msg|
        invariant Valid() && idx == 0 && absorbed == old(absorbed) + msg[..p]
      {
        Complete(msg[p..p + 64]);
        assert msg[..p] + msg[p..p + 64] == msg[..p + 64];
        p := p + 64;
      }
      assert msg[..p] + msg[p..] == msg;
      if p < |msg| {
        Store(msg[p..]);
      }
    }

    /** md5sum_get, up to the output of the state; the object is used up. */
    method Get() returns (end: S)
      requires Valid()
      modifies this`msglen, this`s, buf
      ensures end == Final(f, init, absorbed)
    {
      msglen := AddLength(64 * k, msglen, idx);
      msglen := InBits(|absorbed|, msglen);
      s := LastBlocks(f, init, absorbed, k, buf, s, idx, msglen);
      end := s;
    }
  }

  function Flatten(pieces: seq<seq<Byte>>): seq<Byte> {
    if pieces == [] then [] else pieces[0] + Flatten(pieces[1..])
  }

  /** However a message is cut, passing on the pieces in order ends in the state that the whole
      message ends in. */
  method InPieces<S>(f: (S, seq<Byte>) -> S, init: S, pieces: seq<seq<Byte>>) returns (s: S)
    ensures s == Final(f, init, Flatten(pieces))
  {
    var context := new Context(f, init);
    for i := 0 to |pieces|
      invariant context.Valid() && fresh(context) && fresh(context.buf) && context.f == f && context.init == init
      invariant context.absorbed + Flatten(pieces[i..]) == Flatten(pieces)
    {
      var piece, rest := pieces[i], pieces[i + 1..];
      assert pieces[i..][0] == piece && pieces[i..][1..] == rest;
      assert context.absorbed + (piece + Flatten(rest)) == context.absorbed + piece + Flatten(rest);
      context.Calc(piece);
    }
    assert context.absorbed + [] == context.absorbed;
    s := context.Get();
  }
}
