/** The reply path between kernel and user: send_info of ldt-kmod/ldt_netlink.c, which cuts a block
    of data into netlink attributes, and ldt_getinfo of ldt-tool/lib/ldt_nl.c, which puts it
    together again inside the received buffer.

    Attributes are laid out as in ext/frlib/lib/netlink/fnl.c: a 16-bit length that includes the
    4-byte header, a 16-bit type, the data, and padding to a multiple of 4. */
module NetlinkReply {
  import opened Basics

  const NLA_HDRLEN: nat := 4
  const MSG_HDRLEN: nat := 20   // netlink and generic netlink header
  const CHUNKSZ: nat := 4096
  const ATTR_RET: nat := 1
  const ATTR_INFO: nat := 2

  function Align(n: nat): (r: nat)
    ensures n <= r < n + 4 && r % 4 == 0
  {
    (n + 3) / 4 * 4
  }

  /** Two bytes, low-order first. */
  function U16(n: nat): (r: seq<Byte>)
    ensures |r| == 2
  {
    [n % 256, n / 256 % 256]
  }

  function Read16(lo: int, hi: int): int {
    lo + 256 * hi
  }

  lemma Read16Back(n: nat)
    requires n < 0x1_0000
    ensures Read16(U16(n)[0], U16(n)[1]) == n
  {
  }

  function U32Bytes(n: nat): (r: seq<Byte>)
    ensures |r| == 4
  {
    U16(n) + U16(n / 0x1_0000)
  }

  function Read32(b0: int, b1: int, b2: int, b3: int): int {
    Read16(b0, b1) + 0x1_0000 * Read16(b2, b3)
  }

  lemma Read32Back(n: nat)
    requires n < U32
    ensures var b := U32Bytes(n); Read32(b[0], b[1], b[2], b[3]) == n
  {
    var a := n / 256;
    DivTwice(n);
    assert n == 256 * a + n % 256 && a == 256 * (a / 256) + a % 256;
    Read16Back(a / 256);
  }

  lemma DivTwice(n: nat)
    ensures n / 0x1_0000 == n / 256 / 256
  {
  }

  /** One attribute as it lies in the message. */
  function Attr(id: nat, data: seq<Byte>): (r: seq<Byte>)
    ensures |r| == Align(NLA_HDRLEN + |data|)
  {
    U16(NLA_HDRLEN + |data|) + U16(id) + data + Zeros(Align(NLA_HDRLEN + |data|) - NLA_HDRLEN - |data|)
  }

  /** The data attributes: full chunks, then the rest; none if there is no data. */
  function Chunks(data: seq<Byte>): seq<Byte>
    decreases |data|
  {
    if data == [] then []
    else if |data| > CHUNKSZ then Attr(ATTR_INFO, data[..CHUNKSZ]) + Chunks(data[CHUNKSZ..])
    else Attr(ATTR_INFO, data)
  }

  /** The return value without its sign. The negation wraps in C, and as a u32 the result is the same. */
  function Magnitude(rval: int): nat {
    if rval < 0 then -rval else rval
  }

  /** The whole reply: headers, return value, data. */
  function Message(hdr: seq<Byte>, rval: int, data: seq<Byte>): seq<Byte> {
    hdr + Attr(ATTR_RET, U32Bytes(Magnitude(rval))) + Chunks(data)
  }

  // --- send_info ---

  datatype Sent = Reply(msg: seq<Byte>) | MsgSize

  /** The socket buffer: an array and how much of it is in use. */
  class SkBuff {
    const buf: array<Byte>
    var len: nat

    constructor (size: nat)
      ensures buf.Length == size && len == 0 && fresh(buf)
    {
      buf := new Byte[size];
      len := 0;
    }

    ghost predicate Valid()
      reads this
    {
      len <= buf.Length
    }

    ghost function Used(): seq<Byte>
      reads this, buf
      requires Valid()
    {
      buf[..len]
    }

    /** skb_put with the bytes to store; the caller has checked that there is room. */
    method Put(bytes: seq<Byte>)
      requires Valid() && len + |bytes| <= buf.Length
      modifies this, buf
      ensures Valid() && Used() == old(Used()) + bytes
    {
      forall i | 0 <= i < |bytes| { buf[len + i] := bytes[i]; }
      len := len + |bytes|;
    }

    /** nla_put: refused with EMSGSIZE if the attribute and its padding do not fit. */
    method NlaPut(id: nat, data: seq<Byte>) returns (ok: bool)
      requires Valid()
      modifies this, buf
      ensures Valid() && ok == (old(len) + Align(NLA_HDRLEN + |data|) <= buf.Length)
      ensures Used() == if ok then old(Used()) + Attr(id, data) else old(Used())
    {
      ok := len + Align(NLA_HDRLEN + |data|) <= buf.Length;
      if ok { Put(Attr(id, data)); }
    }
  }

  /** What genlmsg_new allocates for a payload. */
  function Capacity(payload: nat): nat {
    Align(MSG_HDRLEN + payload)
  }

  /** The payload size send_info asks for, computed in a u32. */
  function Payload(len: nat): nat {
    (len + len / CHUNKSZ * 4 + 128) % U32
  }

  lemma {:induction false} ChunksLength(data: seq<Byte>)
    ensures |data| <= |Chunks(data)| <= |data| + |data| / CHUNKSZ * 4 + 8
    decreases |data|
  {
    if |data| > CHUNKSZ {
      ChunksLength(data[CHUNKSZ..]);
      assert |data| / CHUNKSZ == (|data| - CHUNKSZ) / CHUNKSZ + 1;
    }
  }

  /** One full chunk. */
  method SendChunk(skb: SkBuff, data: seq<Byte>, s: nat, ghost all: seq<Byte>) returns (ok: bool)
    requires skb.Valid() && s + CHUNKSZ < |data| && skb.Used() + Chunks(data[s..]) == all
    modifies skb, skb.buf
    ensures skb.Valid() && (ok ==> skb.Used() + Chunks(data[s + CHUNKSZ..]) == all)
    ensures !ok ==> |all| > skb.buf.Length
  {
    var chunk := data[s..s + CHUNKSZ];
    ghost var used, rest := skb.Used(), Chunks(data[s + CHUNKSZ..]);
    ChunksNext(data, s);
    ok := skb.NlaPut(ATTR_INFO, chunk);
    assert used + (Attr(ATTR_INFO, chunk) + rest) == used + Attr(ATTR_INFO, chunk) + rest;
  }

  /** The chunk loop: it gets through exactly when all the attributes fit. */
  method SendChunks(skb: SkBuff, data: seq<Byte>) returns (ok: bool)
    requires skb.Valid()
    modifies skb, skb.buf
    ensures skb.Valid() && ok == (old(skb.len) + |Chunks(data)| <= skb.buf.Length)
    ensures ok ==> skb.Used() == old(skb.Used()) + Chunks(data)
  {
    ghost var all := skb.Used() + Chunks(data);
    var s: nat, len: nat := 0, |data|;
    assert data[0..] == data;
    while len > CHUNKSZ
      invariant s + len == |data| && skb.Valid()
      invariant skb.Used() + Chunks(data[s..]) == all
    {
      ok := SendChunk(skb, data, s, all);
      if !ok { return; }
      s, len := s + CHUNKSZ, len - CHUNKSZ;
    }
    if len > 0 || (s == 0 && |data| > 0) {
      ok := skb.NlaPut(ATTR_INFO, data[s..]);
    } else {
      ok := true;
    }
  }

  lemma ChunksNext(data: seq<Byte>, s: nat)
    requires s + CHUNKSZ < |data|
    ensures Chunks(data[s..]) == Attr(ATTR_INFO, data[s..s + CHUNKSZ]) + Chunks(data[s + CHUNKSZ..])
  {
    var rest := data[s..];
    assert rest[..CHUNKSZ] == data[s..s + CHUNKSZ] && rest[CHUNKSZ..] == data[s + CHUNKSZ..];
  }

  /** The size send_info computes is enough unless it wraps, and far too small if it does. */
  lemma PayloadSuffices(data: seq<Byte>)
    requires |data| < U32
    ensures MSG_HDRLEN + 8 + |Chunks(data)| <= Capacity(Payload(|data|))
       <==> |data| + |data| / CHUNKSZ * 4 + 128 < U32
    ensures MSG_HDRLEN <= Capacity(Payload(|data|))
  {
    ChunksLength(data);
    PayloadValue(|data|, |data| / CHUNKSZ);
  }

  lemma PayloadValue(len: nat, chunks: nat)
    requires len < U32 && chunks == len / CHUNKSZ
    ensures var sum := len + chunks * 4 + 128;
      Payload(len) == (if sum < U32 then sum else sum - U32) && (sum >= U32 ==> Payload(len) + 1000 < len)
  {
    var sum := len + chunks * 4 + 128;
    assert chunks * CHUNKSZ <= len;
    assert 0 <= sum < 2 * U32;
  }

  /** The headers and the attributes: all of them go in exactly when they fit. */
  method Fill(skb: SkBuff, hdr: seq<Byte>, rval: int, data: seq<Byte>) returns (ok: bool)
    requires skb.Valid() && skb.len == 0 && |hdr| <= skb.buf.Length
    modifies skb, skb.buf
    ensures skb.Valid() && ok == (|hdr| + 8 + |Chunks(data)| <= skb.buf.Length)
    ensures ok ==> skb.Used() == Message(hdr, rval, data)
  {
    skb.Put(hdr);
    assert skb.Used() == hdr;
    ok := skb.NlaPut(ATTR_RET, U32Bytes(Magnitude(rval)));
    if ok { ok := SendChunks(skb, data); }
  }

  /** send_info; no data at all stands for a null pointer. The reply fits what is allocated exactly when
      the size does not wrap around in the u32, and is then the whole message. */
  method SendInfo(hdr: seq<Byte>, rval: int, data: seq<Byte>) returns (r: Sent)
    requires |hdr| == MSG_HDRLEN && -0x8000_0000 <= rval < 0x8000_0000 && |data| < U32
    ensures r.Reply? <==> |data| + |data| / 4096 * 4 + 128 < U32
    ensures r.Reply? ==> r.msg == Message(hdr, rval, data)
  {
    PayloadSuffices(data);
    var skb := new SkBuff(Capacity(Payload(|data|)));
    var ok := Fill(skb, hdr, rval, data);
    r := if ok then Reply(skb.buf[..skb.len]) else MsgSize;
  }

  // --- ldt_getinfo ---

  datatype Attribute = Attribute(id: nat, data: seq<Byte>)

  /** An attribute whose length and type fit their 16 bits, and whose return value is there. */
  predicate Sound(a: Attribute) {
    a.id < 0x1_0000 && NLA_HDRLEN + |a.data| < 0x1_0000 && (a.id == ATTR_RET ==> |a.data| >= 4)
  }

  predicate AllSound(attrs: seq<Attribute>) {
    forall i :: 0 <= i < |attrs| ==> Sound(attrs[i])
  }

  function Encode(attrs: seq<Attribute>): seq<Byte> {
    if attrs == [] then [] else Attr(attrs[0].id, attrs[0].data) + Encode(attrs[1..])
  }

  /** The data attributes' bytes, one after the other. */
  function InfoData(attrs: seq<Attribute>): seq<Byte> {
    if attrs == [] then []
    else (if attrs[0].id == ATTR_INFO then attrs[0].data else []) + InfoData(attrs[1..])
  }

  predicate HasInfo(attrs: seq<Attribute>) {
    exists i :: 0 <= i < |attrs| && attrs[i].id == ATTR_INFO
  }

  /** The cast from uint32_t to int. */
  function AsInt(n: int): int {
    if n < 0x8000_0000 then n else n - U32
  }

  function RetValue(a: Attribute): int
    requires |a.data| >= 4
  {
    AsInt(Read32(a.data[0], a.data[1], a.data[2], a.data[3]))
  }

  /** The return value: the last one given, else what was there before. */
  function LastRet(attrs: seq<Attribute>, before: int): int
    requires AllSound(attrs)
  {
    if attrs == [] then before
    else LastRet(attrs[1..], if attrs[0].id == ATTR_RET then RetValue(attrs[0]) else before)
  }

  /** At ptr in the buffer lies the attribute a, followed by the encoding `after`. */
  predicate At(buf: seq<Byte>, ptr: nat, a: Attribute, after: seq<Byte>)
    requires ptr <= |buf|
  {
    buf[ptr..] == Attr(a.id, a.data) + after
  }

  /** What fnl_getattrid, fnl_getattrlen, fnl_getattrdata and fnl_getnextattr read there. */
  lemma AttrFields(buf: seq<Byte>, ptr: nat, a: Attribute, after: seq<Byte>)
    requires ptr <= |buf| && At(buf, ptr, a, after) && Sound(a)
    ensures var n := |a.data|; var next := ptr + Align(NLA_HDRLEN + n);
      && next <= |buf|
      && Read16(buf[ptr], buf[ptr + 1]) == NLA_HDRLEN + n && Read16(buf[ptr + 2], buf[ptr + 3]) == a.id
      && buf[ptr + NLA_HDRLEN..ptr + NLA_HDRLEN + n] == a.data
      && buf[next..] == after
  {
    var n := |a.data|;
    PiecesAt(buf, ptr, U16(NLA_HDRLEN + n), U16(a.id), a.data, Zeros(Align(NLA_HDRLEN + n) - NLA_HDRLEN - n), after);
    Read16Back(NLA_HDRLEN + n);
    Read16Back(a.id);
  }

  /** Where the pieces of an attribute lie. */
  lemma PiecesAt(buf: seq<Byte>, ptr: nat, len: seq<Byte>, id: seq<Byte>, data: seq<Byte>, pad: seq<Byte>, after: seq<Byte>)
    requires ptr <= |buf| && |len| == 2 && |id| == 2 && buf[ptr..] == len + id + data + pad + after
    ensures var next := ptr + 4 + |data| + |pad|;
      && next <= |buf| && buf[ptr] == len[0] && buf[ptr + 1] == len[1] && buf[ptr + 2] == id[0] && buf[ptr + 3] == id[1]
      && buf[ptr + 4..ptr + 4 + |data|] == data && buf[next..] == after
  {
    var t := buf[ptr..];
    assert t[0] == buf[ptr] && t[1] == buf[ptr + 1] && t[2] == buf[ptr + 2] && t[3] == buf[ptr + 3];
    assert t[4..4 + |data|] == data && t[4..4 + |data|] == buf[ptr + 4..ptr + 4 + |data|];
    assert t[4 + |data| + |pad|..] == after && t[4 + |data| + |pad|..] == buf[ptr + 4 + |data| + |pad|..];
  }

  /** The suffix that is left at attribute k. */
  lemma NextAttribute(attrs: seq<Attribute>, k: nat)
    requires k < |attrs|
    ensures Encode(attrs[k..]) == Attr(attrs[k].id, attrs[k].data) + Encode(attrs[k + 1..])
    ensures InfoData(attrs[k..]) == (if attrs[k].id == ATTR_INFO then attrs[k].data else []) + InfoData(attrs[k + 1..])
    ensures HasInfo(attrs[k..]) <==> attrs[k].id == ATTR_INFO || HasInfo(attrs[k + 1..])
    ensures AllSound(attrs) ==> forall before ::
      LastRet(attrs[k..], before) == LastRet(attrs[k + 1..], if attrs[k].id == ATTR_RET then RetValue(attrs[k]) else before)
  {
  }

  /** memmove towards the front. */
  method MoveDown(buf: array<Byte>, to: nat, from: nat, n: nat)
    requires to <= from && from + n <= buf.Length
    modifies buf
    ensures forall j :: 0 <= j < to || to + n <= j < buf.Length ==> buf[j] == old(buf[j])
    ensures forall j :: to <= j < to + n ==> buf[j] == old(buf[..])[j - to + from]
  {
    ghost var was := buf[..];
    var i := 0;
    while i < n
      invariant 0 <= i <= n
      invariant forall j :: 0 <= j < to || to + i <= j < buf.Length ==> buf[j] == was[j]
      invariant forall j :: to <= j < to + i ==> buf[j] == was[j - to + from]
    {
      buf[to + i] := buf[from + i];
      i := i + 1;
    }
  }

  /** What the two passes read at ptr: the type, the length of the data, and where the next one is. */
  method ReadAttr(buf: array<Byte>, ptr: nat, ghost attrs: seq<Attribute>, ghost k: nat)
    returns (id: int, len: nat, next: nat)
    requires ptr <= buf.Length && k < |attrs| && AllSound(attrs) && buf[ptr..] == Encode(attrs[k..])
    ensures id == attrs[k].id && len == |attrs[k].data| && ptr + NLA_HDRLEN + len <= next <= buf.Length
    ensures buf[ptr + NLA_HDRLEN..ptr + NLA_HDRLEN + len] == attrs[k].data
    ensures buf[next..] == Encode(attrs[k + 1..])
  {
    NextAttribute(attrs, k);
    assert buf[..][ptr..] == buf[ptr..];
    AttrFields(buf[..], ptr, attrs[k], Encode(attrs[k + 1..]));
    id := Read16(buf[ptr + 2], buf[ptr + 3]);
    len := Read16(buf[ptr], buf[ptr + 1]) - NLA_HDRLEN;
    next := ptr + Align(Read16(buf[ptr], buf[ptr + 1]));
  }

  /** The first pass: find the return value, and whether there is data at all. */
  method Scan(buf: array<Byte>, before: int, ghost attrs: seq<Attribute>) returns (kret: int, hasret: bool, hasdata: bool)
    requires MSG_HDRLEN <= buf.Length && buf[MSG_HDRLEN..] == Encode(attrs) && AllSound(attrs)
    ensures hasdata == HasInfo(attrs) && (!hasret ==> kret == before)
    ensures forall b :: LastRet(attrs, b) == if hasret then kret else b
  {
    kret, hasret, hasdata := before, false, false;
    var ptr: nat := MSG_HDRLEN;
    ghost var k := 0;
    assert attrs[0..] == attrs;
    while ptr < buf.Length
      invariant ptr <= buf.Length && 0 <= k <= |attrs| && buf[ptr..] == Encode(attrs[k..])
      invariant forall b :: LastRet(attrs, b) == LastRet(attrs[k..], if hasret then kret else b)
      invariant (hasdata || HasInfo(attrs[k..])) == HasInfo(attrs)
      invariant !hasret ==> kret == before
      decreases buf.Length - ptr
    {
      NextAttribute(attrs, k);
      var id, len, next := ReadAttr(buf, ptr, attrs, k);
      var p := ptr + NLA_HDRLEN;
      if id == ATTR_RET {
        ghost var d := attrs[k].data;
        assert buf[p..p + len] == d;
        assert d[0] == buf[p] && d[1] == buf[p + 1] && d[2] == buf[p + 2] && d[3] == buf[p + 3];
        hasret := true;
        kret := AsInt(Read32(buf[p], buf[p + 1], buf[p + 2], buf[p + 3]));
      } else if id == ATTR_INFO {
        hasdata := true;
      }
      ptr := next;
      k := k + 1;
    }
    assert attrs[k..] == [];
  }

  /** What one move of the second pass does to the front and to the part not yet read. */
  lemma Compacted(was: seq<Byte>, now: seq<Byte>, to: nat, from: nat, n: nat, next: nat)
    requires |was| == |now| && to <= from && from + n <= next <= |was|
    requires forall j :: 0 <= j < to || to + n <= j < |was| ==> now[j] == was[j]
    requires forall j :: to <= j < to + n ==> now[j] == was[j - to + from]
    ensures now[..to + n] == was[..to] + was[from..from + n] && now[next..] == was[next..]
  {
  }

  /** memmove, in terms of the pieces that matter: the front grows, what follows is untouched. */
  method MoveData(buf: array<Byte>, to: nat, from: nat, n: nat, ghost next: nat)
    requires to <= from && from + n <= next <= buf.Length
    modifies buf
    ensures buf[..to + n] == old(buf[..to]) + old(buf[from..from + n]) && buf[next..] == old(buf[next..])
  {
    ghost var was := buf[..];
    MoveDown(buf, to, from, n);
    Compacted(was, buf[..], to, from, n, next);
  }

  /** What an attribute adds to the data. */
  function Piece(a: Attribute): seq<Byte> {
    if a.id == ATTR_INFO then a.data else []
  }

  lemma DataNext(done: seq<Byte>, attrs: seq<Attribute>, k: nat, now: seq<Byte>)
    requires k < |attrs| && now == done + Piece(attrs[k])
    ensures now + InfoData(attrs[k + 1..]) == done + InfoData(attrs[k..])
  {
    var s := attrs[k..];
    assert s[0] == attrs[k] && s[1..] == attrs[k + 1..];
    assert InfoData(s) == Piece(attrs[k]) + InfoData(s[1..]);
    assert done + Piece(attrs[k]) + InfoData(s[1..]) == done + (Piece(attrs[k]) + InfoData(s[1..]));
  }

  /** One attribute of the second pass: its data is moved down behind the data before it, and
      nothing of what comes after it is overwritten. */
  method CompactNext(buf: array<Byte>, ptr: nat, xptr: nat, ghost attrs: seq<Attribute>, ghost k: nat)
    returns (next: nat, xnext: nat)
    requires ptr <= buf.Length && k < |attrs| && AllSound(attrs) && buf[ptr..] == Encode(attrs[k..])
    requires xptr <= ptr
    modifies buf
    ensures ptr < next <= buf.Length && buf[next..] == Encode(attrs[k + 1..])
    ensures xptr <= xnext && xnext - xptr <= next - ptr
    ensures buf[..xnext] + InfoData(attrs[k + 1..]) == old(buf[..xptr]) + InfoData(attrs[k..])
  {
    var id, len;
    id, len, next := ReadAttr(buf, ptr, attrs, k);
    xnext := MoveIfInfo(buf, id, xptr, ptr + NLA_HDRLEN, len, next, attrs[k]);
    DataNext(old(buf[..xptr]), attrs, k, buf[..xnext]);
  }

  method MoveIfInfo(buf: array<Byte>, id: int, to: nat, from: nat, n: nat, ghost next: nat, ghost a: Attribute)
    returns (xnext: nat)
    requires to <= from && from + n <= next <= buf.Length && id == a.id && buf[from..from + n] == a.data
    modifies buf
    ensures to <= xnext <= to + n && buf[next..] == old(buf[next..])
    ensures buf[..xnext] == old(buf[..to]) + Piece(a)
  {
    xnext := to;
    if id == ATTR_INFO {
      MoveData(buf, to, from, n, next);
      xnext := to + n;
    }
  }

  lemma EncodeNext(attrs: seq<Attribute>, k: nat)
    requires k <= |attrs| && Encode(attrs[k..]) != []
    ensures k < |attrs|
  {
  }

  /** The second pass. */
  method Compact(buf: array<Byte>, ghost attrs: seq<Attribute>) returns (xptr: nat)
    requires MSG_HDRLEN <= buf.Length && buf[MSG_HDRLEN..] == Encode(attrs) && AllSound(attrs)
    modifies buf
    ensures xptr + MSG_HDRLEN <= buf.Length && buf[..xptr] == InfoData(attrs)
  {
    xptr := 0;
    var ptr: nat := MSG_HDRLEN;
    ghost var k := 0;
    assert attrs[0..] == attrs;
    while ptr < buf.Length
      invariant ptr <= buf.Length && 0 <= k <= |attrs| && buf[ptr..] == Encode(attrs[k..])
      invariant xptr + MSG_HDRLEN <= ptr && buf[..xptr] + InfoData(attrs[k..]) == InfoData(attrs)
      decreases buf.Length - ptr
    {
      EncodeNext(attrs, k);
      ptr, xptr := CompactNext(buf, ptr, xptr, attrs, k);
      k := k + 1;
    }
    assert attrs[k..] == [];
  }

  /** The answer: the data with a NUL behind it (dlen does not count the NUL), or none. */
  datatype Answer = Data(bytes: seq<Byte>) | NoData

  /** ldt_getinfo on a received message; rval is what the caller's variable held before. */
  method GetInfo(buf: array<Byte>, before: int, ghost attrs: seq<Attribute>) returns (answer: Answer, rval: int)
    requires MSG_HDRLEN <= buf.Length && buf[MSG_HDRLEN..] == Encode(attrs) && AllSound(attrs)
    modifies buf
    ensures answer == if HasInfo(attrs) then Data(InfoData(attrs) + [0]) else NoData
    ensures rval == LastRet(attrs, if HasInfo(attrs) then 0 else before)
  {
    var hasret, hasdata;
    rval, hasret, hasdata := Scan(buf, before, attrs);
    if hasdata {
      var xptr := Compact(buf, attrs);
      buf[xptr] := 0;
      answer := Data(buf[..xptr + 1]);
    } else {
      answer := NoData;
    }
    if !hasret && hasdata { rval := 0; }
  }

  // --- From send_info to ldt_getinfo ---

  /** The data attributes of a reply. */
  function ChunkList(data: seq<Byte>): seq<Attribute>
    decreases |data|
  {
    if data == [] then []
    else if |data| > CHUNKSZ then [Attribute(ATTR_INFO, data[..CHUNKSZ])] + ChunkList(data[CHUNKSZ..])
    else [Attribute(ATTR_INFO, data)]
  }

  /** Attributes after the first do not change what the first is. */
  lemma Prepended(a: Attribute, rest: seq<Attribute>)
    ensures var attrs := [a] + rest;
      && Encode(attrs) == Attr(a.id, a.data) + Encode(rest)
      && InfoData(attrs) == (if a.id == ATTR_INFO then a.data else []) + InfoData(rest)
      && (HasInfo(attrs) <==> a.id == ATTR_INFO || HasInfo(rest))
      && (AllSound(rest) && Sound(a) ==>
            && AllSound(attrs)
            && forall b :: LastRet(attrs, b) == LastRet(rest, if a.id == ATTR_RET then RetValue(a) else b))
  {
  }

  lemma {:induction false} ChunkListIsData(data: seq<Byte>)
    ensures Encode(ChunkList(data)) == Chunks(data) && InfoData(ChunkList(data)) == data
    ensures HasInfo(ChunkList(data)) <==> data != []
    ensures AllSound(ChunkList(data)) && forall b :: LastRet(ChunkList(data), b) == b
    decreases |data|
  {
    if data == [] {
    } else if |data| > CHUNKSZ {
      ChunkListIsData(data[CHUNKSZ..]);
      Prepended(Attribute(ATTR_INFO, data[..CHUNKSZ]), ChunkList(data[CHUNKSZ..]));
    } else {
      Prepended(Attribute(ATTR_INFO, data), []);
    }
  }

  /** The pieces: full ones of 4096 bytes each in order, and at the end what is left. */
  lemma {:induction false} ChunkPieces(data: seq<Byte>, i: nat)
    requires i < |ChunkList(data)|
    ensures 4096 * i < |data| && ChunkList(data)[i].id == 2
    ensures ChunkList(data)[i].data == if 4096 * (i + 1) < |data| then data[4096 * i..4096 * (i + 1)] else data[4096 * i..]
    ensures i + 1 == |ChunkList(data)| <==> |data| <= 4096 * (i + 1)
    decreases |data|
  {
    if |data| > CHUNKSZ {
      var rest := data[4096..];
      assert ChunkList(data)[1..] == ChunkList(rest);
      ChunkCount(rest);
      if i > 0 {
        ChunkPieces(rest, i - 1);
        assert rest[4096 * (i - 1)..] == data[4096 * i..];
        if 4096 * i < |rest| { assert rest[4096 * (i - 1)..4096 * i] == data[4096 * i..4096 * (i + 1)]; }
      }
    }
  }

  lemma ChunkCount(data: seq<Byte>)
    ensures ChunkList(data) == [] <==> data == []
  {
  }

  /** The attributes of the whole reply. */
  function ReplyList(rval: int, data: seq<Byte>): seq<Attribute> {
    [Attribute(ATTR_RET, U32Bytes(Magnitude(rval)))] + ChunkList(data)
  }

  lemma DropHead(a: seq<Byte>, b: seq<Byte>, c: seq<Byte>)
    ensures (a + b + c)[|a|..] == b + c
  {
  }

  lemma ReplyListIsMessage(hdr: seq<Byte>, rval: int, data: seq<Byte>)
    requires |hdr| == MSG_HDRLEN && -0x8000_0000 <= rval < 0x8000_0000
    ensures Message(hdr, rval, data)[MSG_HDRLEN..] == Encode(ReplyList(rval, data))
    ensures InfoData(ReplyList(rval, data)) == data && (HasInfo(ReplyList(rval, data)) <==> data != [])
    ensures AllSound(ReplyList(rval, data)) && forall b :: LastRet(ReplyList(rval, data), b) == AsInt(Magnitude(rval))
  {
    ChunkListIsData(data);
    Read32Back(Magnitude(rval));
    var ret := Attribute(ATTR_RET, U32Bytes(Magnitude(rval)));
    Prepended(ret, ChunkList(data));
    DropHead(hdr, Attr(ret.id, ret.data), Chunks(data));
  }

  /** A reply that is sent and received: every block of data for which the size computation does
      not wrap comes back byte for byte, and the return value without its sign. */
  method RoundTrip(hdr: seq<Byte>, rval: int, data: seq<Byte>, before: int)
    returns (sent: bool, answer: Answer, got: int)
    requires |hdr| == MSG_HDRLEN && -0x8000_0000 <= rval < 0x8000_0000 && |data| < U32
    ensures sent <==> |data| + |data| / 4096 * 4 + 128 < U32
    ensures sent ==> answer == (if data == [] then NoData else Data(data + [0]))
    ensures sent ==> got == if rval >= 0 || rval == -0x8000_0000 then rval else -rval
  {
    var r := SendInfo(hdr, rval, data);
    sent, answer, got := r.Reply?, NoData, before;
    if sent {
      ReplyListIsMessage(hdr, rval, data);
      var buf := new Byte[|r.msg|](i requires 0 <= i < |r.msg| => r.msg[i]);
      assert buf[..] == r.msg;
      assert buf[MSG_HDRLEN..] == buf[..][MSG_HDRLEN..];
      answer, got := GetInfo(buf, before, ReplyList(rval, data));
    }
  }
}
