/** Repeating a step, over any type with an addition. */
module Stepping {

  function Iter<T>(f: T -> T, n: nat, x: T): T {
    if n == 0 then x else Iter(f, n - 1, f(x))
  }

  /** n input steps, each looking at the input that is left. */
  function FeedAll<T>(feed: (T, T) -> T, next: T -> T, n: nat, r: T, input: T): T {
    if n == 0 then r else FeedAll(feed, next, n - 1, feed(r, input), next(input))
  }

  /** Repeating a linear step is linear. */
  lemma {:induction false} IterIsLinear<T(!new)>(add: (T, T) -> T, f: T -> T, n: nat, a: T, b: T)
    requires forall x, y :: f(add(x, y)) == add(f(x), f(y))
    ensures Iter(f, n, add(a, b)) == add(Iter(f, n, a), Iter(f, n, b))
  {
    if n > 0 { IterIsLinear(add, f, n - 1, f(a), f(b)); }
  }

  /** If one input step is a plain step of the sum, less the input still to come, then so are n. */
  lemma {:induction false} IterIsFeed<T(!new)>(add: (T, T) -> T, f: T -> T, feed: (T, T) -> T, next: T -> T,
                                               n: nat, r: T, input: T)
    requires forall x, c :: f(add(x, c)) == add(feed(x, c), next(c))
    ensures Iter(f, n, add(r, input)) == add(FeedAll(feed, next, n, r, input), Iter(next, n, input))
  {
    if n > 0 { IterIsFeed(add, f, feed, next, n - 1, feed(r, input), next(input)); }
  }

  lemma {:induction false} IterIsInjective<T(!new)>(f: T -> T, n: nat, a: T, b: T)
    requires forall x, y :: f(x) == f(y) ==> x == y
    requires Iter(f, n, a) == Iter(f, n, b)
    ensures a == b
  {
    if n > 0 { IterIsInjective(f, n - 1, f(a), f(b)); }
  }
}

/** CRC-32 (section 8 of RFC 1952): the table-driven loop of ext/frlib/lib/base/crc.c and the bit-by-bit definition. */
module Crc32 {
  import opened Stepping

  type Reg = bv32

  const ONES: Reg := 0xffffffff

  /** Addition without carries. */
  function Add(a: Reg, b: Reg): Reg {
    a ^ b
  }

  // --- the definition, bit by bit ---

  /** The polynomial comes in if the bit shifted out was 1. */
  function Reduced(odd: bool, x: Reg): Reg {
    if odd then x ^ 0xEDB88320 else x
  }

  function Odd(r: Reg): bool {
    r & 1 == 1
  }

  /** One step of the register that takes in the lowest bit of `bits`. */
  function Feed(r: Reg, bits: Reg): Reg {
    Reduced(Odd(Add(r, bits)), Half(r))
  }

  function Half(bits: Reg): Reg {
    bits >> 1
  }

  /** The register after a message, each byte taken in lowest bit first. */
  function Register(r: Reg, msg: seq<bv8>): Reg
    decreases |msg|
  {
    if msg == [] then r else Register(FeedAll(Feed, Half, 8, r, msg[0] as Reg), msg[1..])
  }

  /** The checksum: the register starts as all ones and is complemented at the end. */
  function Checksum(msg: seq<bv8>): Reg {
    Add(Register(ONES, msg), ONES)
  }

  // --- the table ---

  function Row0(k: Reg): Reg {
    if k == 0x00 then 0x00000000 else if k == 0x01 then 0x77073096 else if k == 0x02 then 0xEE0E612C else if k == 0x03 then 0x990951BA else
    if k == 0x04 then 0x076DC419 else if k == 0x05 then 0x706AF48F else if k == 0x06 then 0xE963A535 else if k == 0x07 then 0x9E6495A3 else
    if k == 0x08 then 0x0EDB8832 else if k == 0x09 then 0x79DCB8A4 else if k == 0x0A then 0xE0D5E91E else if k == 0x0B then 0x97D2D988 else
    if k == 0x0C then 0x09B64C2B else if k == 0x0D then 0x7EB17CBD else if k == 0x0E then 0xE7B82D07 else 0x90BF1D91
  }

  function Row1(k: Reg): Reg {
    if k == 0x10 then 0x1DB71064 else if k == 0x11 then 0x6AB020F2 else if k == 0x12 then 0xF3B97148 else if k == 0x13 then 0x84BE41DE else
    if k == 0x14 then 0x1ADAD47D else if k == 0x15 then 0x6DDDE4EB else if k == 0x16 then 0xF4D4B551 else if k == 0x17 then 0x83D385C7 else
    if k == 0x18 then 0x136C9856 else if k == 0x19 then 0x646BA8C0 else if k == 0x1A then 0xFD62F97A else if k == 0x1B then 0x8A65C9EC else
    if k == 0x1C then 0x14015C4F else if k == 0x1D then 0x63066CD9 else if k == 0x1E then 0xFA0F3D63 else 0x8D080DF5
  }

  function Row2(k: Reg): Reg {
    if k == 0x20 then 0x3B6E20C8 else if k == 0x21 then 0x4C69105E else if k == 0x22 then 0xD56041E4 else if k == 0x23 then 0xA2677172 else
    if k == 0x24 then 0x3C03E4D1 else if k == 0x25 then 0x4B04D447 else if k == 0x26 then 0xD20D85FD else if k == 0x27 then 0xA50AB56B else
    if k == 0x28 then 0x35B5A8FA else if k == 0x29 then 0x42B2986C else if k == 0x2A then 0xDBBBC9D6 else if k == 0x2B then 0xACBCF940 else
    if k == 0x2C then 0x32D86CE3 else if k == 0x2D then 0x45DF5C75 else if k == 0x2E then 0xDCD60DCF else 0xABD13D59
  }

  function Row3(k: Reg): Reg {
    if k == 0x30 then 0x26D930AC else if k == 0x31 then 0x51DE003A else if k == 0x32 then 0xC8D75180 else if k == 0x33 then 0xBFD06116 else
    if k == 0x34 then 0x21B4F4B5 else if k == 0x35 then 0x56B3C423 else if k == 0x36 then 0xCFBA9599 else if k == 0x37 then 0xB8BDA50F else
    if k == 0x38 then 0x2802B89E else if k == 0x39 then 0x5F058808 else if k == 0x3A then 0xC60CD9B2 else if k == 0x3B then 0xB10BE924 else
    if k == 0x3C then 0x2F6F7C87 else if k == 0x3D then 0x58684C11 else if k == 0x3E then 0xC1611DAB else 0xB6662D3D
  }

  function Row4(k: Reg): Reg {
    if k == 0x40 then 0x76DC4190 else if k == 0x41 then 0x01DB7106 else if k == 0x42 then 0x98D220BC else if k == 0x43 then 0xEFD5102A else
    if k == 0x44 then 0x71B18589 else if k == 0x45 then 0x06B6B51F else if k == 0x46 then 0x9FBFE4A5 else if k == 0x47 then 0xE8B8D433 else
    if k == 0x48 then 0x7807C9A2 else if k == 0x49 then 0x0F00F934 else if k == 0x4A then 0x9609A88E else if k == 0x4B then 0xE10E9818 else
    if k == 0x4C then 0x7F6A0DBB else if k == 0x4D then 0x086D3D2D else if k == 0x4E then 0x91646C97 else 0xE6635C01
  }

  function Row5(k: Reg): Reg {
    if k == 0x50 then 0x6B6B51F4 else if k == 0x51 then 0x1C6C6162 else if k == 0x52 then 0x856530D8 else if k == 0x53 then 0xF262004E else
    if k == 0x54 then 0x6C0695ED else if k == 0x55 then 0x1B01A57B else if k == 0x56 then 0x8208F4C1 else if k == 0x57 then 0xF50FC457 else
    if k == 0x58 then 0x65B0D9C6 else if k == 0x59 then 0x12B7E950 else if k == 0x5A then 0x8BBEB8EA else if k == 0x5B then 0xFCB9887C else
    if k == 0x5C then 0x62DD1DDF else if k == 0x5D then 0x15DA2D49 else if k == 0x5E then 0x8CD37CF3 else 0xFBD44C65
  }

  function Row6(k: Reg): Reg {
    if k == 0x60 then 0x4DB26158 else if k == 0x61 then 0x3AB551CE else if k == 0x62 then 0xA3BC0074 else if k == 0x63 then 0xD4BB30E2 else
    if k == 0x64 then 0x4ADFA541 else if k == 0x65 then 0x3DD895D7 else if k == 0x66 then 0xA4D1C46D else if k == 0x67 then 0xD3D6F4FB else
    if k == 0x68 then 0x4369E96A else if k == 0x69 then 0x346ED9FC else if k == 0x6A then 0xAD678846 else if k == 0x6B then 0xDA60B8D0 else
    if k == 0x6C then 0x44042D73 else if k == 0x6D then 0x33031DE5 else if k == 0x6E then 0xAA0A4C5F else 0xDD0D7CC9
  }

  function Row7(k: Reg): Reg {
    if k == 0x70 then 0x5005713C else if k == 0x71 then 0x270241AA else if k == 0x72 then 0xBE0B1010 else if k == 0x73 then 0xC90C2086 else
    if k == 0x74 then 0x5768B525 else if k == 0x75 then 0x206F85B3 else if k == 0x76 then 0xB966D409 else if k == 0x77 then 0xCE61E49F else
    if k == 0x78 then 0x5EDEF90E else if k == 0x79 then 0x29D9C998 else if k == 0x7A then 0xB0D09822 else if k == 0x7B then 0xC7D7A8B4 else
    if k == 0x7C then 0x59B33D17 else if k == 0x7D then 0x2EB40D81 else if k == 0x7E then 0xB7BD5C3B else 0xC0BA6CAD
  }

  function Row8(k: Reg): Reg {
    if k == 0x80 then 0xEDB88320 else if k == 0x81 then 0x9ABFB3B6 else if k == 0x82 then 0x03B6E20C else if k == 0x83 then 0x74B1D29A else
    if k == 0x84 then 0xEAD54739 else if k == 0x85 then 0x9DD277AF else if k == 0x86 then 0x04DB2615 else if k == 0x87 then 0x73DC1683 else
    if k == 0x88 then 0xE3630B12 else if k == 0x89 then 0x94643B84 else if k == 0x8A then 0x0D6D6A3E else if k == 0x8B then 0x7A6A5AA8 else
    if k == 0x8C then 0xE40ECF0B else if k == 0x8D then 0x9309FF9D else if k == 0x8E then 0x0A00AE27 else 0x7D079EB1
  }

  function Row9(k: Reg): Reg {
    if k == 0x90 then 0xF00F9344 else if k == 0x91 then 0x8708A3D2 else if k == 0x92 then 0x1E01F268 else if k == 0x93 then 0x6906C2FE else
    if k == 0x94 then 0xF762575D else if k == 0x95 then 0x806567CB else if k == 0x96 then 0x196C3671 else if k == 0x97 then 0x6E6B06E7 else
    if k == 0x98 then 0xFED41B76 else if k == 0x99 then 0x89D32BE0 else if k == 0x9A then 0x10DA7A5A else if k == 0x9B then 0x67DD4ACC else
    if k == 0x9C then 0xF9B9DF6F else if k == 0x9D then 0x8EBEEFF9 else if k == 0x9E then 0x17B7BE43 else 0x60B08ED5
  }

  function RowA(k: Reg): Reg {
    if k == 0xA0 then 0xD6D6A3E8 else if k == 0xA1 then 0xA1D1937E else if k == 0xA2 then 0x38D8C2C4 else if k == 0xA3 then 0x4FDFF252 else
    if k == 0xA4 then 0xD1BB67F1 else if k == 0xA5 then 0xA6BC5767 else if k == 0xA6 then 0x3FB506DD else if k == 0xA7 then 0x48B2364B else
    if k == 0xA8 then 0xD80D2BDA else if k == 0xA9 then 0xAF0A1B4C else if k == 0xAA then 0x36034AF6 else if k == 0xAB then 0x41047A60 else
    if k == 0xAC then 0xDF60EFC3 else if k == 0xAD then 0xA867DF55 else if k == 0xAE then 0x316E8EEF else 0x4669BE79
  }

  function RowB(k: Reg): Reg {
    if k == 0xB0 then 0xCB61B38C else if k == 0xB1 then 0xBC66831A else if k == 0xB2 then 0x256FD2A0 else if k == 0xB3 then 0x5268E236 else
    if k == 0xB4 then 0xCC0C7795 else if k == 0xB5 then 0xBB0B4703 else if k == 0xB6 then 0x220216B9 else if k == 0xB7 then 0x5505262F else
    if k == 0xB8 then 0xC5BA3BBE else if k == 0xB9 then 0xB2BD0B28 else if k == 0xBA then 0x2BB45A92 else if k == 0xBB then 0x5CB36A04 else
    if k == 0xBC then 0xC2D7FFA7 else if k == 0xBD then 0xB5D0CF31 else if k == 0xBE then 0x2CD99E8B else 0x5BDEAE1D
  }

  function RowC(k: Reg): Reg {
    if k == 0xC0 then 0x9B64C2B0 else if k == 0xC1 then 0xEC63F226 else if k == 0xC2 then 0x756AA39C else if k == 0xC3 then 0x026D930A else
    if k == 0xC4 then 0x9C0906A9 else if k == 0xC5 then 0xEB0E363F else if k == 0xC6 then 0x72076785 else if k == 0xC7 then 0x05005713 else
    if k == 0xC8 then 0x95BF4A82 else if k == 0xC9 then 0xE2B87A14 else if k == 0xCA then 0x7BB12BAE else if k == 0xCB then 0x0CB61B38 else
    if k == 0xCC then 0x92D28E9B else if k == 0xCD then 0xE5D5BE0D else if k == 0xCE then 0x7CDCEFB7 else 0x0BDBDF21
  }

  function RowD(k: Reg): Reg {
    if k == 0xD0 then 0x86D3D2D4 else if k == 0xD1 then 0xF1D4E242 else if k == 0xD2 then 0x68DDB3F8 else if k == 0xD3 then 0x1FDA836E else
    if k == 0xD4 then 0x81BE16CD else if k == 0xD5 then 0xF6B9265B else if k == 0xD6 then 0x6FB077E1 else if k == 0xD7 then 0x18B74777 else
    if k == 0xD8 then 0x88085AE6 else if k == 0xD9 then 0xFF0F6A70 else if k == 0xDA then 0x66063BCA else if k == 0xDB then 0x11010B5C else
    if k == 0xDC then 0x8F659EFF else if k == 0xDD then 0xF862AE69 else if k == 0xDE then 0x616BFFD3 else 0x166CCF45
  }

  function RowE(k: Reg): Reg {
    if k == 0xE0 then 0xA00AE278 else if k == 0xE1 then 0xD70DD2EE else if k == 0xE2 then 0x4E048354 else if k == 0xE3 then 0x3903B3C2 else
    if k == 0xE4 then 0xA7672661 else if k == 0xE5 then 0xD06016F7 else if k == 0xE6 then 0x4969474D else if k == 0xE7 then 0x3E6E77DB else
    if k == 0xE8 then 0xAED16A4A else if k == 0xE9 then 0xD9D65ADC else if k == 0xEA then 0x40DF0B66 else if k == 0xEB then 0x37D83BF0 else
    if k == 0xEC then 0xA9BCAE53 else if k == 0xED then 0xDEBB9EC5 else if k == 0xEE then 0x47B2CF7F else 0x30B5FFE9
  }

  function RowF(k: Reg): Reg {
    if k == 0xF0 then 0xBDBDF21C else if k == 0xF1 then 0xCABAC28A else if k == 0xF2 then 0x53B39330 else if k == 0xF3 then 0x24B4A3A6 else
    if k == 0xF4 then 0xBAD03605 else if k == 0xF5 then 0xCDD70693 else if k == 0xF6 then 0x54DE5729 else if k == 0xF7 then 0x23D967BF else
    if k == 0xF8 then 0xB3667A2E else if k == 0xF9 then 0xC4614AB8 else if k == 0xFA then 0x5D681B02 else if k == 0xFB then 0x2A6F2B94 else
    if k == 0xFC then 0xB40BBE37 else if k == 0xFD then 0xC30C8EA1 else if k == 0xFE then 0x5A05DF1B else 0x2D02EF8D
  }

  function Entry(k: Reg): Reg {
    if k < 0x10 then Row0(k) else if k < 0x20 then Row1(k) else if k < 0x30 then Row2(k) else
    if k < 0x40 then Row3(k) else if k < 0x50 then Row4(k) else if k < 0x60 then Row5(k) else
    if k < 0x70 then Row6(k) else if k < 0x80 then Row7(k) else if k < 0x90 then Row8(k) else
    if k < 0xA0 then Row9(k) else if k < 0xB0 then RowA(k) else if k < 0xC0 then RowB(k) else
    if k < 0xD0 then RowC(k) else if k < 0xE0 then RowD(k) else if k < 0xF0 then RowE(k) else
    RowF(k)
  }

  /** crc32table. */
  const TABLE: seq<Reg> := seq(256, (i: int) requires 0 <= i < 256 => Entry(i as Reg))

  /** One step of the register without input. */
  function Bit(r: Reg): Reg {
    Reduced(Odd(r), Half(r))
  }

  function Eight(r: Reg): Reg {
    Bit(Bit(Bit(Bit(Bit(Bit(Bit(Bit(r))))))))
  }

  lemma EightIsLinear(a: Reg, b: Reg)
    ensures Eight(Add(a, b)) == Add(Eight(a), Eight(b))
  {
    forall a, b ensures Bit(Add(a, b)) == Add(Bit(a), Bit(b)) { BitIsLinear(a, b); }
    IterIsLinear(Add, Bit, 8, a, b);
    EightIsBits(a);
    EightIsBits(b);
    EightIsBits(Add(a, b));
  }

  lemma HalfRowIsEight(k: Reg)
    requires k <= 0x07
    ensures Row0(k) == Eight(k)
  {
  }

  lemma HighHalfRow(k: Reg, low: Reg)
    requires 0x08 <= k <= 0x0F && low == k & 0x07
    ensures k == Add(0x08, low) && low <= 0x07 && Row0(k) == Add(0x0EDB8832, Row0(low))
  {
  }

  lemma Row0IsEight(k: Reg)
    requires k <= 0x0F
    ensures Row0(k) == Eight(k)
  {
    var low := k & 0x07;
    if k <= 0x07 {
      HalfRowIsEight(k);
    } else {
      HighHalfRow(k, low);
      EightIsLinear(0x08, low);
      HalfRowIsEight(low);
    }
  }

  /** A row is the first row, with the entry that the row starts with added to every entry. */
  lemma RowIsEight(start: Reg, k: Reg, low: Reg, first: Reg)
    requires k == Add(start, low) && low <= 0x0F && first == Eight(start)
    ensures Add(first, Row0(low)) == Eight(k)
  {
    EightIsLinear(start, low);
    Row0IsEight(low);
  }

  lemma Row1IsEight(k: Reg)
    requires 0x10 <= k <= 0x1F
    ensures Row1(k) == Eight(k)
  {
    Row1IsRow0(k, k & 0x0F);
    RowIsEight(0x10, k, k & 0x0F, 0x1DB71064);
  }

  lemma Row1IsRow0(k: Reg, low: Reg)
    requires 0x10 <= k <= 0x1F && low == k & 0x0F
    ensures k == Add(0x10, low) && low <= 0x0F && Row1(k) == Add(0x1DB71064, Row0(low))
  {
  }

  lemma Row2IsEight(k: Reg)
    requires 0x20 <= k <= 0x2F
    ensures Row2(k) == Eight(k)
  {
    Row2IsRow0(k, k & 0x0F);
    RowIsEight(0x20, k, k & 0x0F, 0x3B6E20C8);
  }

  lemma Row2IsRow0(k: Reg, low: Reg)
    requires 0x20 <= k <= 0x2F && low == k & 0x0F
    ensures k == Add(0x20, low) && low <= 0x0F && Row2(k) == Add(0x3B6E20C8, Row0(low))
  {
  }

  lemma Row3IsEight(k: Reg)
    requires 0x30 <= k <= 0x3F
    ensures Row3(k) == Eight(k)
  {
    Row3IsRow0(k, k & 0x0F);
    RowIsEight(0x30, k, k & 0x0F, 0x26D930AC);
  }

  lemma Row3IsRow0(k: Reg, low: Reg)
    requires 0x30 <= k <= 0x3F && low == k & 0x0F
    ensures k == Add(0x30, low) && low <= 0x0F && Row3(k) == Add(0x26D930AC, Row0(low))
  {
  }

  lemma Row4IsEight(k: Reg)
    requires 0x40 <= k <= 0x4F
    ensures Row4(k) == Eight(k)
  {
    Row4IsRow0(k, k & 0x0F);
    RowIsEight(0x40, k, k & 0x0F, 0x76DC4190);
  }

  lemma Row4IsRow0(k: Reg, low: Reg)
    requires 0x40 <= k <= 0x4F && low == k & 0x0F
    ensures k == Add(0x40, low) && low <= 0x0F && Row4(k) == Add(0x76DC4190, Row0(low))
  {
  }

  lemma Row5IsEight(k: Reg)
    requires 0x50 <= k <= 0x5F
    ensures Row5(k) == Eight(k)
  {
    Row5IsRow0(k, k & 0x0F);
    RowIsEight(0x50, k, k & 0x0F, 0x6B6B51F4);
  }

  lemma Row5IsRow0(k: Reg, low: Reg)
    requires 0x50 <= k <= 0x5F && low == k & 0x0F
    ensures k == Add(0x50, low) && low <= 0x0F && Row5(k) == Add(0x6B6B51F4, Row0(low))
  {
  }

  lemma Row6IsEight(k: Reg)
    requires 0x60 <= k <= 0x6F
    ensures Row6(k) == Eight(k)
  {
    Row6IsRow0(k, k & 0x0F);
    RowIsEight(0x60, k, k & 0x0F, 0x4DB26158);
  }

  lemma Row6IsRow0(k: Reg, low: Reg)
    requires 0x60 <= k <= 0x6F && low == k & 0x0F
    ensures k == Add(0x60, low) && low <= 0x0F && Row6(k) == Add(0x4DB26158, Row0(low))
  {
  }

  lemma Row7IsEight(k: Reg)
    requires 0x70 <= k <= 0x7F
    ensures Row7(k) == Eight(k)
  {
    Row7IsRow0(k, k & 0x0F);
    RowIsEight(0x70, k, k & 0x0F, 0x5005713C);
  }

  lemma Row7IsRow0(k: Reg, low: Reg)
    requires 0x70 <= k <= 0x7F && low == k & 0x0F
    ensures k == Add(0x70, low) && low <= 0x0F && Row7(k) == Add(0x5005713C, Row0(low))
  {
  }

  lemma Row8IsEight(k: Reg)
    requires 0x80 <= k <= 0x8F
    ensures Row8(k) == Eight(k)
  {
    Row8IsRow0(k, k & 0x0F);
    RowIsEight(0x80, k, k & 0x0F, 0xEDB88320);
  }

  lemma Row8IsRow0(k: Reg, low: Reg)
    requires 0x80 <= k <= 0x8F && low == k & 0x0F
    ensures k == Add(0x80, low) && low <= 0x0F && Row8(k) == Add(0xEDB88320, Row0(low))
  {
  }

  lemma Row9IsEight(k: Reg)
    requires 0x90 <= k <= 0x9F
    ensures Row9(k) == Eight(k)
  {
    Row9IsRow0(k, k & 0x0F);
    RowIsEight(0x90, k, k & 0x0F, 0xF00F9344);
  }

  lemma Row9IsRow0(k: Reg, low: Reg)
    requires 0x90 <= k <= 0x9F && low == k & 0x0F
    ensures k == Add(0x90, low) && low <= 0x0F && Row9(k) == Add(0xF00F9344, Row0(low))
  {
  }

  lemma RowAIsEight(k: Reg)
    requires 0xA0 <= k <= 0xAF
    ensures RowA(k) == Eight(k)
  {
    RowAIsRow0(k, k & 0x0F);
    RowIsEight(0xA0, k, k & 0x0F, 0xD6D6A3E8);
  }

  lemma RowAIsRow0(k: Reg, low: Reg)
    requires 0xA0 <= k <= 0xAF && low == k & 0x0F
    ensures k == Add(0xA0, low) && low <= 0x0F && RowA(k) == Add(0xD6D6A3E8, Row0(low))
  {
  }

  lemma RowBIsEight(k: Reg)
    requires 0xB0 <= k <= 0xBF
    ensures RowB(k) == Eight(k)
  {
    RowBIsRow0(k, k & 0x0F);
    RowIsEight(0xB0, k, k & 0x0F, 0xCB61B38C);
  }

  lemma RowBIsRow0(k: Reg, low: Reg)
    requires 0xB0 <= k <= 0xBF && low == k & 0x0F
    ensures k == Add(0xB0, low) && low <= 0x0F && RowB(k) == Add(0xCB61B38C, Row0(low))
  {
  }

  lemma RowCIsEight(k: Reg)
    requires 0xC0 <= k <= 0xCF
    ensures RowC(k) == Eight(k)
  {
    RowCIsRow0(k, k & 0x0F);
    RowIsEight(0xC0, k, k & 0x0F, 0x9B64C2B0);
  }

  lemma RowCIsRow0(k: Reg, low: Reg)
    requires 0xC0 <= k <= 0xCF && low == k & 0x0F
    ensures k == Add(0xC0, low) && low <= 0x0F && RowC(k) == Add(0x9B64C2B0, Row0(low))
  {
  }

  lemma RowDIsEight(k: Reg)
    requires 0xD0 <= k <= 0xDF
    ensures RowD(k) == Eight(k)
  {
    RowDIsRow0(k, k & 0x0F);
    RowIsEight(0xD0, k, k & 0x0F, 0x86D3D2D4);
  }

  lemma RowDIsRow0(k: Reg, low: Reg)
    requires 0xD0 <= k <= 0xDF && low == k & 0x0F
    ensures k == Add(0xD0, low) && low <= 0x0F && RowD(k) == Add(0x86D3D2D4, Row0(low))
  {
  }

  lemma RowEIsEight(k: Reg)
    requires 0xE0 <= k <= 0xEF
    ensures RowE(k) == Eight(k)
  {
    RowEIsRow0(k, k & 0x0F);
    RowIsEight(0xE0, k, k & 0x0F, 0xA00AE278);
  }

  lemma RowEIsRow0(k: Reg, low: Reg)
    requires 0xE0 <= k <= 0xEF && low == k & 0x0F
    ensures k == Add(0xE0, low) && low <= 0x0F && RowE(k) == Add(0xA00AE278, Row0(low))
  {
  }

  lemma RowFIsEight(k: Reg)
    requires 0xF0 <= k <= 0xFF
    ensures RowF(k) == Eight(k)
  {
    RowFIsRow0(k, k & 0x0F);
    RowIsEight(0xF0, k, k & 0x0F, 0xBDBDF21C);
  }

  lemma RowFIsRow0(k: Reg, low: Reg)
    requires 0xF0 <= k <= 0xFF && low == k & 0x0F
    ensures k == Add(0xF0, low) && low <= 0x0F && RowF(k) == Add(0xBDBDF21C, Row0(low))
  {
  }

  lemma EntryIsEight(k: Reg)
    requires k <= 0xff
    ensures Entry(k) == Eight(k)
  {
    if k < 0x10 { Row0IsEight(k); } else if k < 0x20 { Row1IsEight(k); } else if k < 0x30 { Row2IsEight(k); } else
    if k < 0x40 { Row3IsEight(k); } else if k < 0x50 { Row4IsEight(k); } else if k < 0x60 { Row5IsEight(k); } else
    if k < 0x70 { Row6IsEight(k); } else if k < 0x80 { Row7IsEight(k); } else if k < 0x90 { Row8IsEight(k); } else
    if k < 0xA0 { Row9IsEight(k); } else if k < 0xB0 { RowAIsEight(k); } else if k < 0xC0 { RowBIsEight(k); } else
    if k < 0xD0 { RowCIsEight(k); } else if k < 0xE0 { RowDIsEight(k); } else if k < 0xF0 { RowEIsEight(k); } else
    { RowFIsEight(k); }
  }

  lemma EightIsBits(r: Reg)
    ensures Iter(Bit, 8, r) == Eight(r)
  {
  }

  /** Each entry is eight bit steps of its index. */
  ghost predicate IsTable(table: seq<Reg>) {
    |table| == 256 && forall k: Reg :: k <= 0xff ==> table[k as int] == Iter(Bit, 8, k)
  }

  lemma TableIsBits()
    ensures IsTable(TABLE)
  {
    forall k: Reg | k <= 0xff ensures TABLE[k as int] == Iter(Bit, 8, k) {
      EntryIsEight(k);
      EightIsBits(k);
    }
  }

  // --- the register is linear ---

  lemma BitIsLinear(a: Reg, b: Reg)
    ensures Bit(Add(a, b)) == Add(Bit(a), Bit(b))
  {
    HalfIsLinear(a, b);
    OddIsLinear(a, b);
    ReducedIsLinear(Odd(a), Odd(b), Half(a), Half(b));
  }

  lemma HalfIsLinear(a: Reg, b: Reg)
    ensures Half(Add(a, b)) == Add(Half(a), Half(b))
  {
  }

  lemma OddIsLinear(a: Reg, b: Reg)
    ensures Odd(Add(a, b)) == (Odd(a) != Odd(b))
  {
  }

  lemma ReducedIsLinear(o: bool, p: bool, x: Reg, y: Reg)
    ensures Reduced(o != p, Add(x, y)) == Add(Reduced(o, x), Reduced(p, y))
  {
    if o && p {
      BothReduced(x, y);
    } else if o {
      LeftReduced(x, y);
    } else if p {
      RightReduced(x, y);
    }
  }

  lemma BothReduced(x: Reg, y: Reg)
    ensures Reduced(false, Add(x, y)) == Add(Reduced(true, x), Reduced(true, y))
  {
  }

  lemma LeftReduced(x: Reg, y: Reg)
    ensures Reduced(true, Add(x, y)) == Add(Reduced(true, x), Reduced(false, y))
  {
  }

  lemma RightReduced(x: Reg, y: Reg)
    ensures Reduced(true, Add(x, y)) == Add(Reduced(false, x), Reduced(true, y))
  {
  }

  /** Feeding input is stepping the sum of register and input, up to the input still to come. */
  lemma FeedIsBit(r: Reg, c: Reg)
    ensures Bit(Add(r, c)) == Add(Feed(r, c), Half(c))
  {
    HalfIsLinear(r, c);
    ReducedIsLinear(Odd(Add(r, c)), false, Half(r), Half(c));
  }

  // --- one byte ---

  lemma LowByte(x: Reg)
    ensures x & 0xff <= 0xff && (x & 0xffffff00) & 0xff == 0
    ensures (x & 0xffffff00) >> 8 == x >> 8 && (x & 0xff) ^ (x & 0xffffff00) == x
  {
  }

  /** Without low bits eight steps only shift. */
  lemma HighShifts(x: Reg)
    requires x & 0xff == 0
    ensures Iter(Bit, 8, x) == x >> 8
  {
  }

  lemma ByteHalvesAway(b: Reg)
    requires b <= 0xff
    ensures Iter(Half, 8, b) == 0
  {
  }

  /** One table step equals eight bit steps of the register. */
  lemma LookupIsBits(table: seq<Reg>, x: Reg)
    requires IsTable(table)
    ensures Add(table[(x & 0xff) as int], x >> 8) == Iter(Bit, 8, x)
  {
    LowByte(x);
    HighShifts(x & 0xffffff00);
    forall a, b ensures Bit(Add(a, b)) == Add(Bit(a), Bit(b)) { BitIsLinear(a, b); }
    IterIsLinear(Add, Bit, 8, x & 0xff, x & 0xffffff00);
  }

  /** Feeding a byte is eight steps of the sum. */
  lemma FeedByteIsBits(r: Reg, b: Reg)
    requires b <= 0xff
    ensures FeedAll(Feed, Half, 8, r, b) == Iter(Bit, 8, Add(r, b))
  {
    forall r, c ensures Bit(Add(r, c)) == Add(Feed(r, c), Half(c)) { FeedIsBit(r, c); }
    IterIsFeed(Add, Bit, Feed, Half, 8, r, b);
    ByteHalvesAway(b);
  }

  /** A char of the message promoted to int: sign-extended where char is signed. */
  function Promoted(b: bv8): Reg {
    if b >= 0x80 then (b as Reg) | 0xffffff00 else b as Reg
  }

  lemma IndexAndShift(r: Reg, b: bv8)
    ensures (b as Reg) <= 0xff
    ensures (r ^ Promoted(b)) & 0xff == (r ^ (b as Reg)) & 0xff
    ensures (r ^ (b as Reg)) >> 8 == r >> 8
  {
  }

  /** One turn of the table loop takes in one byte, bit by bit. */
  lemma TurnIsFeed(table: seq<Reg>, r: Reg, b: Reg, sum: Reg, k: Reg, rest: Reg)
    requires IsTable(table) && b <= 0xff
    requires sum == Add(r, b) && k == sum & 0xff && rest == sum >> 8
    ensures Add(table[k as int], rest) == FeedAll(Feed, Half, 8, r, b)
  {
    LookupIsBits(table, sum);
    FeedByteIsBits(r, b);
  }

  /** The table-driven checksum of any message is the bitwise one. */
  method Frcrc(msg: seq<bv8>) returns (out: Reg)
    ensures out == Checksum(msg)
  {
    TableIsBits();
    out := Run(TABLE, msg);
    out := Add(out, ONES);
  }

  method Run(table: seq<Reg>, msg: seq<bv8>) returns (crc: Reg)
    requires IsTable(table)
    ensures crc == Register(ONES, msg)
  {
    crc := ONES;
    for i := 0 to |msg|
      invariant Register(crc, msg[i..]) == Register(ONES, msg)
    {
      assert msg[i..][0] == msg[i] && msg[i..][1..] == msg[i + 1..];
      crc := Turn(table, crc, msg[i]);
    }
  }

  method Turn(table: seq<Reg>, crc: Reg, b: bv8) returns (crc': Reg)
    requires IsTable(table)
    ensures crc' == FeedAll(Feed, Half, 8, crc, b as Reg)
  {
    var k, rest := (crc ^ Promoted(b)) & 0xff, crc >> 8;
    IndexAndShift(crc, b);
    TurnIsFeed(table, crc, b as Reg, Add(crc, b as Reg), k, rest);
    crc' := Add(table[k as int], rest);
  }

  // --- the check value ---

  function Index(x: Reg): Reg {
    x & 0xff
  }

  function Shifted(x: Reg): Reg {
    x >> 8
  }

  /** One byte by the entry of the table. */
  lemma ByteStep(r: Reg, b: bv8, rest: seq<bv8>, c: Reg, x: Reg, k: Reg, e: Reg, r': Reg)
    requires c == b as Reg && x == Add(r, c) && k == Index(x) && e == Iter(Bit, 8, k) && r' == Add(e, Shifted(x))
    ensures Register(r, [b] + rest) == Register(r', rest)
  {
    ByteFits(b);
    FeedByteIsBits(r, c);
    TableIsBits();
    TableStep(TABLE, x, k, e);
    assert ([b] + rest)[1..] == rest;
  }

  lemma TableStep(table: seq<Reg>, x: Reg, k: Reg, e: Reg)
    requires IsTable(table) && k == Index(x) && e == Iter(Bit, 8, k)
    ensures Iter(Bit, 8, x) == Add(e, Shifted(x))
  {
    LowByte(x);
    LookupIsBits(table, x);
  }

  lemma EntryBits(k: Reg, e: Reg)
    requires k <= 0xff && Entry(k) == e
    ensures Iter(Bit, 8, k) == e
  {
    EntryIsEight(k);
    EightIsBits(k);
  }

  lemma CheckSums()
    ensures Add(0xFFFFFFFF, 0x31) == 0xFFFFFFCE && Index(0xFFFFFFCE) == 0xCE && Add(0x7CDCEFB7, Shifted(0xFFFFFFCE)) == 0x7C231048
    ensures Add(0x7C231048, 0x32) == 0x7C23107A && Index(0x7C23107A) == 0x7A && Add(0xB0D09822, Shifted(0x7C23107A)) == 0xB0ACBB32
    ensures Add(0xB0ACBB32, 0x33) == 0xB0ACBB01 && Index(0xB0ACBB01) == 0x01 && Add(0x77073096, Shifted(0xB0ACBB01)) == 0x77B79C2D
    ensures Add(0x77B79C2D, 0x34) == 0x77B79C19 && Index(0x77B79C19) == 0x19 && Add(0x646BA8C0, Shifted(0x77B79C19)) == 0x641C1F5C
    ensures Add(0x641C1F5C, 0x35) == 0x641C1F69 && Index(0x641C1F69) == 0x69 && Add(0x346ED9FC, Shifted(0x641C1F69)) == 0x340AC5E3
    ensures Add(0x340AC5E3, 0x36) == 0x340AC5D5 && Index(0x340AC5D5) == 0xD5 && Add(0xF6B9265B, Shifted(0x340AC5D5)) == 0xF68D2C9E
    ensures Add(0xF68D2C9E, 0x37) == 0xF68D2CA9 && Index(0xF68D2CA9) == 0xA9 && Add(0xAF0A1B4C, Shifted(0xF68D2CA9)) == 0xAFFC9660
    ensures Add(0xAFFC9660, 0x38) == 0xAFFC9658 && Index(0xAFFC9658) == 0x58 && Add(0x65B0D9C6, Shifted(0xAFFC9658)) == 0x651F2550
    ensures Add(0x651F2550, 0x39) == 0x651F2569 && Index(0x651F2569) == 0x69 && Add(0x346ED9FC, Shifted(0x651F2569)) == 0x340BC6D9
  {
  }

  lemma Digit1(rest: seq<bv8>)
    ensures Register(0xFFFFFFFF, [0x31] + rest) == Register(0x7C231048, rest)
  {
    CheckSums();
    KnownByte(0xFFFFFFFF, 0x31, rest, 0x31, 0xFFFFFFCE, 0xCE, 0x7CDCEFB7, 0x7C231048);
  }

  lemma Digit2(rest: seq<bv8>)
    ensures Register(0x7C231048, [0x32] + rest) == Register(0xB0ACBB32, rest)
  {
    CheckSums();
    KnownByte(0x7C231048, 0x32, rest, 0x32, 0x7C23107A, 0x7A, 0xB0D09822, 0xB0ACBB32);
  }

  lemma Digit3(rest: seq<bv8>)
    ensures Register(0xB0ACBB32, [0x33] + rest) == Register(0x77B79C2D, rest)
  {
    CheckSums();
    KnownByte(0xB0ACBB32, 0x33, rest, 0x33, 0xB0ACBB01, 0x01, 0x77073096, 0x77B79C2D);
  }

  lemma Digit4(rest: seq<bv8>)
    ensures Register(0x77B79C2D, [0x34] + rest) == Register(0x641C1F5C, rest)
  {
    CheckSums();
    KnownByte(0x77B79C2D, 0x34, rest, 0x34, 0x77B79C19, 0x19, 0x646BA8C0, 0x641C1F5C);
  }

  lemma Digit5(rest: seq<bv8>)
    ensures Register(0x641C1F5C, [0x35] + rest) == Register(0x340AC5E3, rest)
  {
    CheckSums();
    KnownByte(0x641C1F5C, 0x35, rest, 0x35, 0x641C1F69, 0x69, 0x346ED9FC, 0x340AC5E3);
  }

  lemma Digit6(rest: seq<bv8>)
    ensures Register(0x340AC5E3, [0x36] + rest) == Register(0xF68D2C9E, rest)
  {
    CheckSums();
    KnownByte(0x340AC5E3, 0x36, rest, 0x36, 0x340AC5D5, 0xD5, 0xF6B9265B, 0xF68D2C9E);
  }

  lemma Digit7(rest: seq<bv8>)
    ensures Register(0xF68D2C9E, [0x37] + rest) == Register(0xAFFC9660, rest)
  {
    CheckSums();
    KnownByte(0xF68D2C9E, 0x37, rest, 0x37, 0xF68D2CA9, 0xA9, 0xAF0A1B4C, 0xAFFC9660);
  }

  lemma Digit8(rest: seq<bv8>)
    ensures Register(0xAFFC9660, [0x38] + rest) == Register(0x651F2550, rest)
  {
    CheckSums();
    KnownByte(0xAFFC9660, 0x38, rest, 0x38, 0xAFFC9658, 0x58, 0x65B0D9C6, 0x651F2550);
  }

  lemma Digit9(rest: seq<bv8>)
    ensures Register(0x651F2550, [0x39] + rest) == Register(0x340BC6D9, rest)
  {
    CheckSums();
    KnownByte(0x651F2550, 0x39, rest, 0x39, 0x651F2569, 0x69, 0x346ED9FC, 0x340BC6D9);
  }

  lemma Digits1To3(rest: seq<bv8>)
    ensures Register(0xFFFFFFFF, [0x31] + ([0x32] + ([0x33] + rest))) == Register(0x77B79C2D, rest)
  {
    Digit1([0x32] + ([0x33] + rest));
    Digit2([0x33] + rest);
    Digit3(rest);
  }

  lemma Digits4To6(rest: seq<bv8>)
    ensures Register(0x77B79C2D, [0x34] + ([0x35] + ([0x36] + rest))) == Register(0xF68D2C9E, rest)
  {
    Digit4([0x35] + ([0x36] + rest));
    Digit5([0x36] + rest);
    Digit6(rest);
  }

  lemma Digits7To9(rest: seq<bv8>)
    ensures Register(0xF68D2C9E, [0x37] + ([0x38] + ([0x39] + rest))) == Register(0x340BC6D9, rest)
  {
    Digit7([0x38] + ([0x39] + rest));
    Digit8([0x39] + rest);
    Digit9(rest);
  }

  lemma KnownByte(r: Reg, b: bv8, rest: seq<bv8>, c: Reg, x: Reg, k: Reg, e: Reg, r': Reg)
    requires c == b as Reg && x == Add(r, c) && k == Index(x) && k <= 0xff && e == Entry(k) && r' == Add(e, Shifted(x))
    ensures Register(r, [b] + rest) == Register(r', rest)
  {
    EntryBits(k, e);
    ByteStep(r, b, rest, c, x, k, e, r');
  }

  /** The checksum of the digits 1 to 9, the value by which CRC-32 is usually identified. */
  lemma CheckValue()
    ensures Checksum([0x31, 0x32, 0x33, 0x34, 0x35, 0x36, 0x37, 0x38, 0x39]) == 0xCBF43926
  {
    var c: seq<bv8> := [0x37] + ([0x38] + ([0x39] + []));
    var b: seq<bv8> := [0x34] + ([0x35] + ([0x36] + c));
    Digits1To3(b);
    Digits4To6(c);
    Digits7To9([]);
    NineDigits(b, c);
  }

  lemma NineDigits(b: seq<bv8>, c: seq<bv8>)
    requires c == [0x37] + ([0x38] + ([0x39] + [])) && b == [0x34] + ([0x35] + ([0x36] + c))
    ensures [0x31, 0x32, 0x33, 0x34, 0x35, 0x36, 0x37, 0x38, 0x39] == [0x31] + ([0x32] + ([0x33] + b))
  {
  }

  // --- what the checksum detects ---

  lemma BitIsInjective(a: Reg, b: Reg)
    requires Bit(a) == Bit(b)
    ensures a == b
  {
  }

  lemma SumsDiffer(r: Reg, r': Reg, b: Reg, b': Reg)
    requires b <= 0xff && b' <= 0xff
    requires FeedAll(Feed, Half, 8, r, b) == FeedAll(Feed, Half, 8, r', b')
    ensures Add(r, b) == Add(r', b')
  {
    FeedByteIsBits(r, b);
    FeedByteIsBits(r', b');
    forall x, y | Bit(x) == Bit(y) ensures x == y { BitIsInjective(x, y); }
    IterIsInjective(Bit, 8, Add(r, b), Add(r', b'));
  }

  lemma AddCancels(r: Reg, r': Reg, b: Reg)
    requires Add(r, b) == Add(r', b)
    ensures r == r'
  {
  }

  lemma AddCommutes(r: Reg, b: Reg)
    ensures Add(r, b) == Add(b, r)
  {
  }

  /** Different registers stay different over any common rest of a message. */
  lemma {:induction false} RegisterIsInjective(r: Reg, r': Reg, msg: seq<bv8>)
    requires Register(r, msg) == Register(r', msg)
    ensures r == r'
    decreases |msg|
  {
    if msg != [] {
      var b := msg[0] as Reg;
      ByteFits(msg[0]);
      RegisterIsInjective(FeedAll(Feed, Half, 8, r, b), FeedAll(Feed, Half, 8, r', b), msg[1..]);
      SumsDiffer(r, r', b, b);
      AddCancels(r, r', b);
    }
  }

  lemma ByteFits(b: bv8)
    ensures b as Reg <= 0xff
  {
  }

  lemma BytesDiffer(b: bv8, b': bv8)
    requires b as Reg == b' as Reg
    ensures b == b'
  {
  }

  lemma {:induction false} RegisterAppend(r: Reg, a: seq<bv8>, c: seq<bv8>)
    ensures Register(r, a + c) == Register(Register(r, a), c)
    decreases |a|
  {
    if a == [] {
      assert a + c == c;
    } else {
      assert (a + c)[1..] == a[1..] + c && (a + c)[0] == a[0];
      RegisterAppend(FeedAll(Feed, Half, 8, r, a[0] as Reg), a[1..], c);
    }
  }

  lemma RegisterAround(a: seq<bv8>, x: bv8, c: seq<bv8>)
    ensures Register(ONES, a + [x] + c)
         == Register(FeedAll(Feed, Half, 8, Register(ONES, a), x as Reg), c)
  {
    RegisterAppend(ONES, a + [x], c);
    RegisterAppend(ONES, a, [x]);
    assert [x][1..] == [];
  }

  lemma FeedIsInjective(r: Reg, x: bv8, y: bv8)
    requires FeedAll(Feed, Half, 8, r, x as Reg) == FeedAll(Feed, Half, 8, r, y as Reg)
    ensures x == y
  {
    ByteFits(x);
    ByteFits(y);
    SumsDiffer(r, r, x as Reg, y as Reg);
    AddCommutes(r, x as Reg);
    AddCommutes(r, y as Reg);
    AddCancels(x as Reg, y as Reg, r);
    BytesDiffer(x, y);
  }

  /** A single damaged byte, anywhere in a message of any length, always changes the checksum. */
  lemma DamagedByteDetected(a: seq<bv8>, x: bv8, y: bv8, c: seq<bv8>)
    requires Checksum(a + [x] + c) == Checksum(a + [y] + c)
    ensures x == y
  {
    AddCancels(Register(ONES, a + [x] + c), Register(ONES, a + [y] + c), ONES);
    RegisterAround(a, x, c);
    RegisterAround(a, y, c);
    var r := Register(ONES, a);
    RegisterIsInjective(FeedAll(Feed, Half, 8, r, x as Reg), FeedAll(Feed, Half, 8, r, y as Reg), c);
    FeedIsInjective(r, x, y);
  }
}
