/**
 Batches of requests in one packet: a 48-byte header with Ethernet, IPv4 and UDP fields, then for every request a
 24-byte header and the key and the value, each padded to a multiple of eight bytes.
 */
module Batch {
  import opened Words

  const BATCH_HEADER: int := 48    // sizeof(RequestBatchHeader)
  const REQUEST_HEADER: int := 24  // sizeof(RequestHeader)
  const MAX_FRAME: int := 1514     // RTE_ETHER_MAX_LEN without the checksum
  const MAX_SPACE: int := 1442     // kMaxValueLength: the longest frame without checksum and the two headers
  const MAGIC: int := 42
  const NUM_REQUESTS: int := 43
  const REQUEST_MAGIC: int := 0x78
  const RESPONSE_MAGIC: int := 0x79

  type Bytes = seq<U8>

  datatype Request = Request(operation: U8, result: U8, cookie: U32, keyHash: U64, key: Bytes, value: Bytes)

  // ---------- Numbers ----------

  /** Little-endian, in w bytes. */
  function Le(n: nat, w: nat): (s: Bytes)
    ensures |s| == w
  {
    if w == 0 then [] else [n % 256] + Le(n / 256, w - 1)
  }

  function FromLe(s: Bytes): nat {
    if s == [] then 0 else s[0] + 256 * FromLe(s[1..])
  }

  function Pow256(w: nat): nat {
    if w == 0 then 1 else 256 * Pow256(w - 1)
  }

  lemma {:induction false} LeRoundTrip(n: nat, w: nat)
    requires n < Pow256(w)
    ensures FromLe(Le(n, w)) == n
  {
    if 0 < w {
      LeRoundTrip(n / 256, w - 1);
      assert Le(n, w)[1..] == Le(n / 256, w - 1);
    }
  }

  lemma {:induction false} LeBelow(s: Bytes)
    ensures FromLe(s) < Pow256(|s|)
  {
    if s != [] {
      LeBelow(s[1..]);
    }
  }

  lemma WordSizes()
    ensures Pow256(4) == TWO_32 && Pow256(8) == TWO_64
  {
    assert Pow256(2) == TWO_16 && Pow256(6) == TWO_48;
  }

  /** Network order, two bytes. */
  function FromBe(hi: int, lo: int): int {
    hi * 256 + lo
  }

  // ---------- Requests in a packet ----------

  function SizeOf(r: Request): nat {
    REQUEST_HEADER + RoundUp8(|r.key|) + RoundUp8(|r.value|)
  }

  ghost predicate Representable(r: Request) {
    |r.key| < TWO_8 && |r.value| < TWO_24
  }

  /** The 20 bytes of the request header that are written; the last four are reserved. */
  function HeaderBytes(operation: U8, result: U8, cookie: U32, keyHash: U64, keyLength: nat,
                       valueLength: nat): (s: Bytes)
    ensures |s| == 20
  {
    [operation, result, 0, 0] + Le(keyLength * TWO_24 + valueLength, 4) + Le(keyHash, 8) + Le(cookie, 4)
  }

  ghost predicate EncodedAt(data: Bytes, o: nat, r: Request) {
    && Representable(r) && o + SizeOf(r) <= |data|
    && data[o..o + 20] == HeaderBytes(r.operation, r.result, r.cookie, r.keyHash, |r.key|, |r.value|)
    && data[o + REQUEST_HEADER..o + REQUEST_HEADER + |r.key|] == r.key
    && var v := o + REQUEST_HEADER + RoundUp8(|r.key|); data[v..v + |r.value|] == r.value
  }

  /** Where the i-th request starts, or the batch ends. */
  ghost function OffsetOf(rs: seq<Request>, i: nat): (o: nat)
    requires i <= |rs|
    ensures BATCH_HEADER <= o
  {
    if i == 0 then BATCH_HEADER else OffsetOf(rs, i - 1) + SizeOf(rs[i - 1])
  }

  ghost predicate Encoded(data: Bytes, rs: seq<Request>) {
    forall i | 0 <= i < |rs| :: EncodedAt(data, OffsetOf(rs, i), rs[i])
  }

  function KeyLength(data: Bytes, o: nat): (n: nat)
    requires o + REQUEST_HEADER <= |data|
  {
    FromLe(data[o + 4..o + 8]) / TWO_24
  }

  function ValueLength(data: Bytes, o: nat): (n: nat)
    requires o + REQUEST_HEADER <= |data|
  {
    FromLe(data[o + 4..o + 8]) % TWO_24
  }

  /** A whole request, header, key and value, lies within the packet. */
  predicate HasRequest(data: Bytes, o: nat) {
    && o + REQUEST_HEADER <= |data|
    && o + REQUEST_HEADER + RoundUp8(KeyLength(data, o)) + RoundUp8(ValueLength(data, o)) <= |data|
  }

  function NextOffset(data: Bytes, o: nat): nat
    requires HasRequest(data, o)
  {
    o + REQUEST_HEADER + RoundUp8(KeyLength(data, o)) + RoundUp8(ValueLength(data, o))
  }

  /** What the getters of the reader return at an offset. */
  function RequestAt(data: Bytes, o: nat): Request
    requires HasRequest(data, o)
  {
    var k, v := o + REQUEST_HEADER, o + REQUEST_HEADER + RoundUp8(KeyLength(data, o));
    LeBelow(data[o + 8..o + 16]);
    LeBelow(data[o + 16..o + 20]);
    WordSizes();
    Request(data[o], data[o + 1], FromLe(data[o + 16..o + 20]), FromLe(data[o + 8..o + 16]),
            data[k..k + KeyLength(data, o)], data[v..v + ValueLength(data, o)])
  }

  /** Everything a reader finds from an offset on, whatever the bytes are. */
  ghost function Parse(data: Bytes, o: nat): seq<Request>
    decreases |data| - o
  {
    if HasRequest(data, o) then [RequestAt(data, o)] + Parse(data, NextOffset(data, o)) else []
  }

  lemma EncodedRequest(data: Bytes, o: nat, r: Request)
    requires EncodedAt(data, o, r)
    ensures HasRequest(data, o) && NextOffset(data, o) == o + SizeOf(r) && RequestAt(data, o) == r
  {
    hide Le, FromLe, RoundUp8, Pow256;
    var h, lengths := data[o..o + 20], |r.key| * TWO_24 + |r.value|;
    Pieces([r.operation, r.result, 0, 0], Le(lengths, 4), Le(r.keyHash, 8), Le(r.cookie, 4));
    Within(data, o, 4, 8);
    Within(data, o, 8, 16);
    Within(data, o, 16, 20);
    assert data[o] == h[0] && data[o + 1] == h[1];
    WordSizes();
    LeRoundTrip(lengths, 4);
    LeRoundTrip(r.keyHash, 8);
    LeRoundTrip(r.cookie, 4);
  }

  lemma FromLe4(s: Bytes)
    requires |s| == 4
    ensures var a: int, b: int, c: int, d: int := s[0], s[1], s[2], s[3];
            FromLe(s) == a + 0x100 * b + 0x1_0000 * c + 0x100_0000 * d
  {
    assert s[3..][1..] == [] && s[2..][1..] == s[3..] && s[1..][1..] == s[2..];
    assert FromLe(s[3..]) == s[3];
    assert FromLe(s[2..]) == s[2] + 256 * FromLe(s[3..]);
    assert FromLe(s[1..]) == s[1] + 256 * FromLe(s[2..]);
  }

  lemma FromLe8(s: Bytes)
    requires |s| == 8
    ensures FromLe(s) == FromLe(s[..4]) + TWO_32 * FromLe(s[4..])
  {
    assert s[..4][1..] == s[1..4] && s[1..4][1..] == s[2..4] && s[2..4][1..] == s[3..4] && s[3..4][1..] == [];
    assert s[1..][1..] == s[2..] && s[2..][1..] == s[3..] && s[3..][1..] == s[4..];
    assert FromLe(s[3..]) == s[3] + 256 * FromLe(s[4..]) && FromLe(s[3..4]) == s[3];
    assert FromLe(s[2..]) == s[2] + 256 * FromLe(s[3..]) && FromLe(s[2..4]) == s[2] + 256 * FromLe(s[3..4]);
  }

  /** Four bytes, the low one first. */
  function Quad(data: Bytes, o: nat): int
    requires o + 4 <= |data|
  {
    var a: int, b: int, c: int, d: int := data[o], data[o + 1], data[o + 2], data[o + 3];
    a + 0x100 * b + 0x1_0000 * c + 0x100_0000 * d
  }

  lemma SliceQuad(data: Bytes, o: nat)
    requires o + 4 <= |data|
    ensures FromLe(data[o..o + 4]) == Quad(data, o)
  {
    FromLe4(data[o..o + 4]);
  }

  /** The layout of a request header: operation and result, two reserved bytes, the length of the value in three bytes
      and that of the key in one, the key's hash, and the opaque number. */
  lemma EncodedLayout(data: Bytes, o: nat, r: Request)
    requires EncodedAt(data, o, r)
    ensures o + 24 <= |data| && data[o] == r.operation && data[o + 1] == r.result
    ensures Quad(data, o + 4) == |r.key| * 0x100_0000 + |r.value| && Quad(data, o + 16) == r.cookie
    ensures Quad(data, o + 8) + TWO_32 * Quad(data, o + 12) == r.keyHash
  {
    hide FromLe, Quad, RoundUp8, HeaderBytes;
    EncodedRequest(data, o, r);
    SliceQuad(data, o + 4);
    SliceQuad(data, o + 8);
    SliceQuad(data, o + 12);
    SliceQuad(data, o + 16);
    FromLe8(data[o + 8..o + 16]);
    assert data[o + 8..o + 16][..4] == data[o + 8..o + 12] && data[o + 8..o + 16][4..] == data[o + 12..o + 16];
  }

  lemma NoRequest(data: Bytes)
    ensures !HasRequest(data, |data|)
  {
  }

  lemma Within(data: Bytes, o: nat, a: nat, b: nat)
    requires a <= b <= 20 && o + 20 <= |data|
    ensures data[o + a..o + b] == data[o..o + 20][a..b]
  {
    var h := data[o..o + 20];
    forall i | 0 <= i < b - a
      ensures data[o + a..o + b][i] == h[a..b][i]
    {
      assert h[a + i] == data[o + a + i];
    }
  }

  lemma Pieces(a: Bytes, b: Bytes, c: Bytes, d: Bytes)
    requires |a| == 4 && |b| == 4 && |c| == 8 && |d| == 4
    ensures var s := a + b + c + d;
            s[0] == a[0] && s[1] == a[1] && s[4..8] == b && s[8..16] == c && s[16..20] == d
  {
  }

  /** Reading a batch that ends where the packet ends yields exactly its requests. */
  lemma {:induction false} ParseEncoded(data: Bytes, rs: seq<Request>, i: nat)
    requires Encoded(data, rs) && OffsetOf(rs, |rs|) == |data| && i <= |rs|
    ensures Parse(data, OffsetOf(rs, i)) == rs[i..]
    decreases |rs| - i
  {
    hide HasRequest, RequestAt, NextOffset, EncodedAt, SizeOf;
    if i == |rs| {
      NoRequest(data);
    } else {
      EncodedRequest(data, OffsetOf(rs, i), rs[i]);
      ParseEncoded(data, rs, i + 1);
    }
  }

  // ---------- The reader ----------

  class Reader {
    const data: Bytes
    var started: bool // h_ is not null
    var h: nat

    constructor (data: Bytes)
      ensures this.data == data && !started
    {
      this.data := data;
      started, h := false, 0;
    }

    /** Where the next request would start. */
    ghost function Next(): nat
      requires started ==> HasRequest(data, h)
      reads this
    {
      if started then NextOffset(data, h) else BATCH_HEADER
    }

    /** Moves to the next request, if there is one. */
    method FindNext() returns (found: bool)
      requires started ==> HasRequest(data, h)
      modifies this
      ensures started && h == old(Next()) && (found <==> HasRequest(data, h))
    {
      hide FromLe;
      h := if started then h + REQUEST_HEADER + RoundUp8(KeyLength(data, h)) + RoundUp8(ValueLength(data, h))
      else BATCH_HEADER;
      started := true;
      if h + REQUEST_HEADER > |data| {
        return false;
      }
      if h + REQUEST_HEADER + RoundUp8(KeyLength(data, h)) + RoundUp8(ValueLength(data, h)) > |data| {
        return false;
      }
      return true;
    }
  }

  /** Reads a packet to its end; no byte outside it is read. */
  method ReadAll(data: Bytes) returns (rs: seq<Request>)
    ensures rs == Parse(data, BATCH_HEADER)
  {
    hide HasRequest, NextOffset, RequestAt;
    rs := [];
    var reader := new Reader(data);
    var more := reader.FindNext();
    while more
      invariant reader.data == data && reader.started && fresh(reader)
      invariant more <==> HasRequest(data, reader.h)
      invariant rs + Parse(data, reader.h) == Parse(data, BATCH_HEADER)
      decreases |data| - reader.h
    {
      Progress(data, reader.h);
      rs := rs + [RequestAt(data, reader.h)];
      more := reader.FindNext();
    }
  }

  lemma Progress(data: Bytes, o: nat)
    requires HasRequest(data, o)
    ensures o < NextOffset(data, o) <= |data|
  {
  }

  // ---------- Packets ----------

  /** The header of a packet is that of a batch. */
  predicate IsValid(data: Bytes) {
    && BATCH_HEADER <= |data|
    && FromBe(data[12], data[13]) == 0x0800
    && data[14] == 0x45
    && FromBe(data[18], data[19]) == 0 && FromBe(data[20], data[21]) == 0
    && FromBe(data[16], data[17]) == |data| - 14
    && data[23] == 17
    && FromBe(data[38], data[39]) == FromBe(data[16], data[17]) - 20
    && (data[MAGIC] == REQUEST_MAGIC || data[MAGIC] == RESPONSE_MAGIC)
  }

  predicate IsRequest(data: Bytes)
    requires IsValid(data)
  {
    data[MAGIC] == REQUEST_MAGIC
  }

  /** Of the bytes of a valid packet exactly those that the header's checks are about may not be changed, the magic
      number only into the other one; and no byte may be missing or added at the end. */
  lemma HeaderIsChecked(data: Bytes, k: nat, x: U8, rest: Bytes)
    requires IsValid(data) && k < |data| && x != data[k]
    ensures IsValid(data[k := x]) <==>
            && k !in {12, 13, 14, 16, 17, 18, 19, 20, 21, 23, 38, 39}
            && (k == 42 ==> (data[42] == 0x78 && x == 0x79) || (data[42] == 0x79 && x == 0x78))
    ensures rest != [] ==> !IsValid(data + rest)
    ensures !IsValid(data[..k]) && (IsRequest(data) <==> data[42] == 0x78)
    ensures && data[12] == 8 && data[13] == 0 && data[14] == 0x45 && data[23] == 17
            && data[18] == data[19] == data[20] == data[21] == 0 && (data[42] == 0x78 || data[42] == 0x79)
    ensures var a: int, b: int, c: int, d: int := data[16], data[17], data[38], data[39];
            256 * a + b + 14 == |data| == 256 * c + d + 34
  {
  }

  // ---------- The builder ----------

  /** Bytes before `at` and from `to` on are as they were. */
  ghost predicate OnlyBytes(data: Bytes, data': Bytes, at: nat, to: nat) {
    |data'| == |data| && at <= to <= |data| && forall k | 0 <= k < |data| && !(at <= k < to) :: data'[k] == data[k]
  }

  /** The space test of the builder. */
  predicate Passes(keyLength: nat, valueLength: nat) {
    RoundUp8(keyLength) + RoundUp8(valueLength) <= MAX_SPACE
  }

  /** One more request behind those of a batch stays within the longest frame. */
  ghost predicate FitsFrame(rs: seq<Request>, keyLength: nat, valueLength: nat) {
    OffsetOf(rs, |rs|) + REQUEST_HEADER + RoundUp8(keyLength) + RoundUp8(valueLength) <= MAX_FRAME
  }

  lemma {:induction false} OffsetGrows(rs: seq<Request>, n: nat)
    requires n <= |rs|
    ensures BATCH_HEADER + REQUEST_HEADER * n <= OffsetOf(rs, n)
  {
    if 0 < n {
      OffsetGrows(rs, n - 1);
    }
  }

  lemma ManyEights()
    ensures RoundUp8(0) == 0 && RoundUp8(1440) == 1440
  {
  }

  /** What the space test is worth: behind a batch it tells rightly whether a request fits exactly if the request is too
      long for any packet or the batch leaves room for it; and for all requests exactly if there is none in the batch
      yet. */
  lemma SpaceTestRight(rs: seq<Request>)
    ensures forall k, v | 0 <= k < TWO_8 && 0 <= v < TWO_24 ::
              (Passes(k, v) <==> FitsFrame(rs, k, v)) <==>
              MAX_SPACE < RoundUp8(k) + RoundUp8(v)
              || RoundUp8(k) + RoundUp8(v) <= MAX_SPACE - (OffsetOf(rs, |rs|) - BATCH_HEADER)
    ensures (forall k, v | 0 <= k < TWO_8 && 0 <= v < TWO_24 :: Passes(k, v) <==> FitsFrame(rs, k, v)) <==> rs == []
  {
    hide RoundUp8;
    OffsetGrows(rs, |rs|);
    if rs != [] {
      ManyEights();
      assert Passes(0, 1440) && !FitsFrame(rs, 0, 1440);
    }
  }

  /** Two values of 1440 bytes pass the test one after the other, but make no frame. */
  method TooLong(buf: array<U8>) returns (builder: Builder)
    requires 4096 <= buf.Length
    modifies buf
    ensures builder.Valid() && |builder.requests| == 2 && MAX_FRAME < builder.h
  {
    hide Encoded, RoundUp8;
    builder := new Builder(buf);
    assert RoundUp8(0) == 0 && RoundUp8(1440) == 1440 by { ManyEights(); }
    builder.AppendNoKeyValue(0, 0, 0, 0, 0, 1440);
    builder.AppendNoKeyValue(0, 0, 0, 0, 0, 1440);
  }

  class Builder {
    const buf: array<U8>
    var h: nat
    var count: U16
    ghost var requests: seq<Request>

    ghost predicate Valid()
      reads this, buf
    {
      && BATCH_HEADER <= buf.Length && h <= buf.Length && count == |requests| <= 255
      && h == OffsetOf(requests, |requests|) && Encoded(buf[..], requests)
    }

    constructor (buf: array<U8>)
      requires BATCH_HEADER <= buf.Length
      ensures Valid() && this.buf == buf && requests == []
    {
      this.buf := buf;
      h, count := BATCH_HEADER, 0;
      requests := [];
    }

    /** The remaining space is set by the constructor and never reduced. */
    function HasSufficientSpace(keyLength: nat, valueLength: nat): bool {
      Passes(keyLength, valueLength)
    }

    method Store(at: nat, s: Bytes)
      requires at + |s| <= buf.Length
      modifies buf
      ensures OnlyBytes(old(buf[..]), buf[..], at, at + |s|) && buf[at..at + |s|] == s
    {
      for i := 0 to |s|
        invariant forall k | 0 <= k < i :: buf[at + k] == s[k]
        invariant forall k | 0 <= k < buf.Length && !(at <= k < at + i) :: buf[k] == old(buf[k])
      {
        buf[at + i] := s[i];
      }
    }

    /** Writes a request behind the others.  The key and the value come in buffers that are readable up to the next
        multiple of eight; the padding takes whatever is there. */
    method Append(operation: U8, result: U8, cookie: U32, keyHash: U64, keyBuf: Bytes, keyLength: nat, valueBuf: Bytes,
                  valueLength: nat)
      requires Valid() && count < 255 && keyLength < TWO_8 && valueLength < TWO_24
      requires |keyBuf| == RoundUp8(keyLength) && |valueBuf| == RoundUp8(valueLength)
      requires HasSufficientSpace(keyLength, valueLength)
      requires h + REQUEST_HEADER + RoundUp8(keyLength) + RoundUp8(valueLength) <= buf.Length
      modifies this, buf
      ensures Valid() && OnlyBytes(old(buf[..]), buf[..], old(h), h)
      ensures requests == old(requests)
                          + [Request(operation, result, cookie, keyHash, keyBuf[..keyLength], valueBuf[..valueLength])]
    {
      hide Le, RoundUp8, Encoded, OffsetOf, EncodedAt, HeaderBytes, SizeOf;
      ghost var m0 := buf[..];
      Store(h + REQUEST_HEADER, keyBuf);
      ghost var m1 := buf[..];
      Store(h + REQUEST_HEADER + RoundUp8(keyLength), valueBuf);
      ghost var m2 := buf[..];
      KeyAndValueStored(m0, m1, m2, h + REQUEST_HEADER, keyBuf, valueBuf, keyLength, valueLength);
      EncodedKept(m0, m2, requests);
      AppendNoKeyValue(operation, result, cookie, keyHash, keyLength, valueLength);
    }

    /** The same for a key and a value that already stand in the packet. */
    method AppendNoKeyValue(operation: U8, result: U8, cookie: U32, keyHash: U64, keyLength: nat, valueLength: nat)
      requires Valid() && count < 255 && keyLength < TWO_8 && valueLength < TWO_24
      requires HasSufficientSpace(keyLength, valueLength)
      requires h + REQUEST_HEADER + RoundUp8(keyLength) + RoundUp8(valueLength) <= buf.Length
      modifies this, buf
      ensures Valid() && OnlyBytes(old(buf[..]), buf[..], old(h), old(h) + 20)
      ensures h == old(h) + REQUEST_HEADER + RoundUp8(keyLength) + RoundUp8(valueLength)
      ensures var k, v := old(h) + REQUEST_HEADER, old(h) + REQUEST_HEADER + RoundUp8(keyLength);
              requests == old(requests) + [Request(operation, result, cookie, keyHash,
                                                   old(buf[..])[k..k + keyLength], old(buf[..])[v..v + valueLength])]
    {
      hide Le, RoundUp8, Encoded, OffsetOf, EncodedAt, HeaderBytes;
      ghost var m0 := buf[..];
      ghost var k, v := h + REQUEST_HEADER, h + REQUEST_HEADER + RoundUp8(keyLength);
      ghost var r := Request(operation, result, cookie, keyHash, m0[k..k + keyLength], m0[v..v + valueLength]);
      Store(h, HeaderBytes(operation, result, cookie, keyHash, keyLength, valueLength));
      NewEncoded(m0, buf[..], h, r);
      EncodedKept(m0, buf[..], requests);
      OneMoreEncoded(buf[..], requests, r);
      requests := requests + [r];
      h := h + REQUEST_HEADER + RoundUp8(keyLength) + RoundUp8(valueLength);
      count := count + 1;
    }

    /** set_request and set_response. */
    method SetMagic(magic: U8)
      requires Valid() && (magic == REQUEST_MAGIC || magic == RESPONSE_MAGIC)
      modifies buf
      ensures Valid() && OnlyBytes(old(buf[..]), buf[..], MAGIC, MAGIC + 1) && buf[MAGIC] == magic
    {
      ghost var m0 := buf[..];
      buf[MAGIC] := magic;
      EncodedKept(m0, buf[..], requests);
    }

    /** Writes the fields of the packet header that depend on the batch. */
    method WriteHeader(length: U16)
      requires BATCH_HEADER <= length <= buf.Length && (buf[MAGIC] == REQUEST_MAGIC || buf[MAGIC] == RESPONSE_MAGIC)
      modifies buf
      ensures IsValid(buf[..length]) && buf[MAGIC] == old(buf[MAGIC]) && buf[NUM_REQUESTS] == count % TWO_8
      ensures forall k | BATCH_HEADER <= k < buf.Length :: buf[k] == old(buf[k])
    {
      hide IsValid, OnlyBytes;
      ghost var m0 := buf[..];
      Store(12, [0x08, 0x00, 0x45, 0, (length - 14) / 256, (length - 14) % 256, 0, 0, 0, 0, 64, 17, 0, 0]);
      ghost var m1 := buf[..];
      Store(38, [(length - 34) / 256, (length - 34) % 256, 0, 0]);
      ghost var m2 := buf[..];
      Store(NUM_REQUESTS, [count % TWO_8]);
      SliceKept(m1, m2, 38, 42, 12, 26);
      SliceKept(m2, buf[..], NUM_REQUESTS, NUM_REQUESTS + 1, 12, 26);
      SliceKept(m2, buf[..], NUM_REQUESTS, NUM_REQUESTS + 1, 38, 40);
      assert m2[38..40] == m2[38..42][..2];
      HeaderIsValid(buf[..], length);
    }

    /** Completes the header; the packet ends behind the last request. */
    method Finalize() returns (length: U16)
      requires Valid() && h < TWO_16 && (buf[MAGIC] == REQUEST_MAGIC || buf[MAGIC] == RESPONSE_MAGIC)
      modifies buf
      ensures Valid() && length == h && IsValid(buf[..length]) && buf[MAGIC] == old(buf[MAGIC])
      ensures Parse(buf[..length], BATCH_HEADER) == requests && buf[NUM_REQUESTS] == |requests| % TWO_8
    {
      hide Encoded, IsValid;
      ghost var m0 := buf[..];
      length := h;
      WriteHeader(length);
      EncodedKept(m0, buf[..], requests);
      EncodedPrefix(buf[..], requests, h);
      ParseEncoded(buf[..h], requests, 0);
    }
  }

  lemma SliceKept(data: Bytes, data': Bytes, at: nat, to: nat, from: nat, end: nat)
    requires OnlyBytes(data, data', at, to) && from <= end <= |data| && (end <= at || to <= from)
    ensures |data'| == |data| && data'[from..end] == data[from..end]
  {
  }

  lemma ZeroBe()
    ensures FromBe(0, 0) == 0 && FromBe(0x08, 0x00) == 0x0800
  {
  }

  lemma HighAndLow(n: nat)
    ensures FromBe(n / 256, n % 256) == n
  {
  }

  lemma HeaderIsValid(data: Bytes, length: U16)
    requires BATCH_HEADER <= length <= |data| && (data[MAGIC] == REQUEST_MAGIC || data[MAGIC] == RESPONSE_MAGIC)
    requires data[12..26] == [0x08, 0x00, 0x45, 0, (length - 14) / 256, (length - 14) % 256, 0, 0, 0, 0, 64, 17, 0, 0]
    requires data[38..40] == [(length - 34) / 256, (length - 34) % 256]
    ensures IsValid(data[..length])
  {
    hide FromBe;
    ZeroBe();
    HighAndLow(length - 14);
    HighAndLow(length - 34);
    var ip, udp := data[12..26], data[38..40];
    assert data[12] == ip[0] && data[13] == ip[1] && data[14] == ip[2] && data[16] == ip[4] && data[17] == ip[5];
    assert data[18] == ip[6] && data[19] == ip[7] && data[20] == ip[8] && data[21] == ip[9] && data[23] == ip[11];
    assert data[38] == udp[0] && data[39] == udp[1];
  }

  /** A new request behind the others: its header is written, its key and value stand there already. */
  lemma NewEncoded(data: Bytes, data': Bytes, o: nat, r: Request)
    requires Representable(r) && o + SizeOf(r) <= |data| && OnlyBytes(data, data', o, o + 20)
    requires data'[o..o + 20] == HeaderBytes(r.operation, r.result, r.cookie, r.keyHash, |r.key|, |r.value|)
    requires r.key == data[o + REQUEST_HEADER..o + REQUEST_HEADER + |r.key|]
    requires var v := o + REQUEST_HEADER + RoundUp8(|r.key|); r.value == data[v..v + |r.value|]
    ensures EncodedAt(data', o, r)
  {
    hide HeaderBytes, RoundUp8;
    var k := o + REQUEST_HEADER;
    var v := k + RoundUp8(|r.key|);
    assert data'[k..k + |r.key|] == data[k..k + |r.key|];
    assert data'[v..v + |r.value|] == data[v..v + |r.value|];
  }

  lemma {:induction false} OffsetsGrow(rs: seq<Request>, i: nat, j: nat)
    requires i <= j <= |rs|
    ensures OffsetOf(rs, i) <= OffsetOf(rs, j)
    ensures i < j ==> OffsetOf(rs, i) + SizeOf(rs[i]) <= OffsetOf(rs, j)
  {
    if i < j {
      OffsetsGrow(rs, i, j - 1);
    }
  }

  lemma {:induction false} OffsetsOfMore(rs: seq<Request>, r: Request, i: nat)
    requires i <= |rs|
    ensures OffsetOf(rs + [r], i) == OffsetOf(rs, i)
  {
    if 0 < i {
      OffsetsOfMore(rs, r, i - 1);
    }
  }

  /** Requests stay when only the packet header or bytes behind them are written. */
  lemma EncodedKept(data: Bytes, data': Bytes, rs: seq<Request>)
    requires Encoded(data, rs) && |data'| == |data|
    requires forall k | BATCH_HEADER <= k < OffsetOf(rs, |rs|) && k < |data| :: data'[k] == data[k]
    ensures Encoded(data', rs)
  {
    hide EncodedAt, SizeOf;
    forall i | 0 <= i < |rs|
      ensures EncodedAt(data', OffsetOf(rs, i), rs[i])
    {
      var o := OffsetOf(rs, i);
      OffsetsGrow(rs, i, |rs|);
      assert EncodedAt(data, o, rs[i]);
      Inside(data, o, rs[i]);
      SameBytesSameRequest(data, data', o, rs[i]);
    }
  }

  lemma Inside(data: Bytes, o: nat, r: Request)
    requires EncodedAt(data, o, r)
    ensures o + SizeOf(r) <= |data|
  {
  }

  lemma SameBytesSameRequest(data: Bytes, data': Bytes, o: nat, r: Request)
    requires EncodedAt(data, o, r) && o + SizeOf(r) <= |data'|
    requires forall k | o <= k < o + SizeOf(r) :: data'[k] == data[k]
    ensures EncodedAt(data', o, r)
  {
    hide HeaderBytes, RoundUp8;
    var k := o + REQUEST_HEADER;
    var v := k + RoundUp8(|r.key|);
    assert data'[o..o + 20] == data[o..o + 20];
    assert data'[k..k + |r.key|] == data[k..k + |r.key|];
    assert data'[v..v + |r.value|] == data[v..v + |r.value|];
  }

  lemma OneMoreEncoded(data: Bytes, rs: seq<Request>, r: Request)
    requires Encoded(data, rs) && EncodedAt(data, OffsetOf(rs, |rs|), r)
    ensures Encoded(data, rs + [r]) && OffsetOf(rs + [r], |rs| + 1) == OffsetOf(rs, |rs|) + SizeOf(r)
  {
    hide EncodedAt, SizeOf;
    OffsetsOfMore(rs, r, |rs|);
    var all := rs + [r];
    forall i | 0 <= i < |rs| + 1
      ensures EncodedAt(data, OffsetOf(all, i), all[i])
    {
      if i < |rs| {
        assert EncodedAt(data, OffsetOf(rs, i), rs[i]);
        OffsetsOfMore(rs, r, i);
      }
    }
  }

  lemma EncodedPrefix(data: Bytes, rs: seq<Request>, n: nat)
    requires Encoded(data, rs) && OffsetOf(rs, |rs|) == n <= |data|
    ensures Encoded(data[..n], rs)
  {
    hide EncodedAt, SizeOf;
    forall i | 0 <= i < |rs|
      ensures EncodedAt(data[..n], OffsetOf(rs, i), rs[i])
    {
      var o := OffsetOf(rs, i);
      OffsetsGrow(rs, i, |rs|);
      assert EncodedAt(data, o, rs[i]);
      SameBytesSameRequest(data, data[..n], o, rs[i]);
    }
  }

  lemma KeyAndValueStored(m0: Bytes, m1: Bytes, m2: Bytes, k: nat, keyBuf: Bytes, valueBuf: Bytes, keyLength: nat,
                          valueLength: nat)
    requires k + |keyBuf| + |valueBuf| <= |m0| && keyLength <= |keyBuf| && valueLength <= |valueBuf|
    requires OnlyBytes(m0, m1, k, k + |keyBuf|) && m1[k..k + |keyBuf|] == keyBuf
    requires OnlyBytes(m1, m2, k + |keyBuf|, k + |keyBuf| + |valueBuf|)
    requires m2[k + |keyBuf|..k + |keyBuf| + |valueBuf|] == valueBuf
    ensures OnlyBytes(m0, m2, k, k + |keyBuf| + |valueBuf|)
    ensures m2[k..k + keyLength] == keyBuf[..keyLength]
    ensures m2[k + |keyBuf|..k + |keyBuf| + valueLength] == valueBuf[..valueLength]
  {
    var v, e := k + |keyBuf|, k + |keyBuf| + |valueBuf|;
    forall i | 0 <= i < keyLength
      ensures m2[k + i] == keyBuf[i]
    {
      assert m1[k + i] == m1[k..v][i];
    }
    forall i | 0 <= i < valueLength
      ensures m2[v + i] == valueBuf[i]
    {
      assert m2[v + i] == m2[v..e][i];
    }
  }
}
