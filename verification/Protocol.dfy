/** The frame format of Protocol.h / Protocol.cpp:
    `[magic:4][kind:1][length:4][payload:length]`, integers big-endian.

    Bytes and 32-bit words are bounded integers. On unsigned words `>> 8k` is
    division by 256^k, `& 0xFF` is the remainder modulo 256, and `|` of
    disjoint shifted bytes is their sum; a cast to uint32_t is `% U32_RANGE`. */
module Protocol {

  type Byte = b: int | 0 <= b < 0x100
  type Bytes = seq<Byte>
  type U32 = n: int | 0 <= n < U32_RANGE

  const U32_RANGE: int := 0x1_0000_0000
  const PROTOCOL_MAGIC: U32 := 0x4C4D5347
  const HEADER_SIZE: nat := 9
  const MAX_PAYLOAD: U32 := 16 * 1024 * 1024

  // Packet kinds the transport and its client react to. Any byte is a legal
  // value of the enumeration: the decoder casts without checking.
  const MSG_TEXT: Byte := 0x01
  const MSG_RECEIPT: Byte := 0x03
  const PING: Byte := 0xF0
  const PONG: Byte := 0xF1
  const HANDSHAKE: Byte := 0xF4

  datatype Option<+T> = None | Some(value: T)

  datatype Header = Header(magic: U32, kind: Byte, length: U32)

  datatype Packet = Packet(header: Header, payload: Bytes)

  // ----- big-endian integers ------------------------------------------------

  /** The last `width` base-256 digits of a number, most significant first. */
  function BigEndian(val: nat, width: nat): (r: Bytes)
    ensures |r| == width
  {
    if width == 0 then [] else BigEndian(val / 0x100, width - 1) + [val % 0x100]
  }

  /** The four bytes at offset `at`. */
  function ReadU32Be(src: Bytes, at: nat): U32
    requires at + 4 <= |src|
  {
    var b0: int, b1: int, b2: int, b3: int := src[at], src[at + 1], src[at + 2], src[at + 3];
    b0 * 0x100_0000 + b1 * 0x1_0000 + b2 * 0x100 + b3
  }

  lemma BigEndianDigits(val: nat)
    ensures BigEndian(val, 4) ==
      [val / 0x100_0000 % 0x100, val / 0x1_0000 % 0x100, val / 0x100 % 0x100, val % 0x100]
  {
    assert BigEndian(val / 0x100_0000, 1) == BigEndian(val / 0x1_0000_0000, 0) + [val / 0x100_0000 % 0x100];
    assert BigEndian(val / 0x1_0000, 2) == BigEndian(val / 0x100_0000, 1) + [val / 0x1_0000 % 0x100];
    assert BigEndian(val / 0x100, 3) == BigEndian(val / 0x1_0000, 2) + [val / 0x100 % 0x100];
  }

  /** Reading undoes writing on every 32-bit value ... */
  lemma ReadOfWrite(val: U32)
    ensures ReadU32Be(BigEndian(val, 4), 0) == val
  {
    BigEndianDigits(val);
    var q1, q2, q3 := val / 0x100, val / 0x1_0000, val / 0x100_0000;
    assert val == q1 * 0x100 + val % 0x100;
    assert q1 == q2 * 0x100 + q1 % 0x100;
    assert q2 == q3 * 0x100 + q2 % 0x100;
    assert q3 % 0x100 == q3;
  }

  /** ... and writing undoes reading on every four bytes. */
  lemma WriteOfRead(src: Bytes, at: nat)
    requires at + 4 <= |src|
    ensures BigEndian(ReadU32Be(src, at), 4) == src[at..at + 4]
  {
    var v: int, b0: int, b1: int, b2: int := ReadU32Be(src, at), src[at], src[at + 1], src[at + 2];
    assert v / 0x100_0000 == b0;
    assert v / 0x1_0000 == b0 * 0x100 + b1;
    assert v / 0x100 == b0 * 0x1_0000 + b1 * 0x100 + b2;
    BigEndianDigits(v);
  }

  method WriteU32Be(dst: array<Byte>, at: nat, val: U32)
    requires at + 4 <= dst.Length
    modifies dst
    ensures dst[at..at + 4] == BigEndian(val, 4)
    ensures dst[..at] == old(dst[..at]) && dst[at + 4..] == old(dst[at + 4..])
  {
    dst[at] := val / 0x100_0000 % 0x100;
    dst[at + 1] := val / 0x1_0000 % 0x100;
    dst[at + 2] := val / 0x100 % 0x100;
    dst[at + 3] := val % 0x100;
    BigEndianDigits(val);
  }

  // ----- whole packets ------------------------------------------------------

  function Truncated(size: nat): U32 {
    size % U32_RANGE
  }

  function HeaderBytes(h: Header): (r: Bytes)
    ensures |r| == HEADER_SIZE
  {
    BigEndian(h.magic, 4) + [h.kind] + BigEndian(h.length, 4)
  }

  /** The header a packet gets on the wire: the length field is recomputed. */
  function WireHeader(p: Packet): Header {
    p.header.(length := Truncated(|p.payload|))
  }

  /** What `Serialize` writes. */
  function Encode(p: Packet): (r: Bytes)
    ensures |r| == HEADER_SIZE + |p.payload|
  {
    HeaderBytes(WireHeader(p)) + p.payload
  }

  /** Where the header, the payload and what follows a frame are found again. */
  lemma EncodeParts(p: Packet, t: Bytes)
    ensures var s := Encode(p) + t;
      && s[..HEADER_SIZE] == HeaderBytes(WireHeader(p))
      && s[HEADER_SIZE..HEADER_SIZE + |p.payload|] == p.payload
      && s[HEADER_SIZE + |p.payload|..] == t
  {
  }

  /** Fills the buffer field by field, as the source does; the copy of the
      payload is a memcpy there. */
  method Serialize(p: Packet) returns (buf: array<Byte>)
    ensures fresh(buf)
    ensures buf[..] == Encode(p)
  {
    buf := new Byte[HEADER_SIZE + |p.payload|];
    WriteU32Be(buf, 0, p.header.magic);
    buf[4] := p.header.kind;
    assert buf[..4] == BigEndian(p.header.magic, 4);
    WriteU32Be(buf, 5, Truncated(|p.payload|));
    assert buf[..5] == BigEndian(p.header.magic, 4) + [p.header.kind];
    assert buf[..HEADER_SIZE] == buf[..5] + buf[5..HEADER_SIZE];
    ghost var head := buf[..HEADER_SIZE];
    if p.payload != [] {
      forall i | 0 <= i < |p.payload| {
        buf[HEADER_SIZE + i] := p.payload[i];
      }
    }
    assert buf[..HEADER_SIZE] == head;
    assert buf[HEADER_SIZE..] == p.payload;
    assert buf[..] == buf[..HEADER_SIZE] + buf[HEADER_SIZE..];
  }

  function DeserializeHeader(data: Bytes): Option<Header> {
    if |data| < HEADER_SIZE then None else
    var hdr := Header(ReadU32Be(data, 0), data[4], ReadU32Be(data, 5));
    if hdr.magic != PROTOCOL_MAGIC then None
    else if hdr.length > MAX_PAYLOAD then None
    else Some(hdr)
  }

  predicate HeaderAccepted(h: Header) {
    h.magic == PROTOCOL_MAGIC && h.length <= MAX_PAYLOAD
  }

  /** A header survives the wire exactly when the receiver's two checks pass. */
  lemma DecodeHeaderBytes(h: Header)
    ensures DeserializeHeader(HeaderBytes(h)) == if HeaderAccepted(h) then Some(h) else None
  {
    var b := HeaderBytes(h);
    var m, l := BigEndian(h.magic, 4), BigEndian(h.length, 4);
    assert b[0] == m[0] && b[1] == m[1] && b[2] == m[2] && b[3] == m[3] && b[4] == h.kind;
    assert b[5] == l[0] && b[6] == l[1] && b[7] == l[2] && b[8] == l[3];
    ReadOfWrite(h.magic);
    ReadOfWrite(h.length);
  }

  /** An accepted header determines the nine bytes it was read from. */
  lemma HeaderBytesOfDecoded(data: Bytes)
    requires |data| == HEADER_SIZE && DeserializeHeader(data).Some?
    ensures HeaderAccepted(DeserializeHeader(data).value)
    ensures HeaderBytes(DeserializeHeader(data).value) == data
  {
    WriteOfRead(data, 0);
    WriteOfRead(data, 5);
    assert data == data[0..4] + [data[4]] + data[5..9];
  }

  function MakePacket(kind: Byte, payload: Bytes): Packet {
    Packet(Header(PROTOCOL_MAGIC, kind, Truncated(|payload|)), payload)
  }

  function MakePing(): Packet {
    MakePacket(PING, [])
  }

  function MakePong(): Packet {
    MakePacket(PONG, [])
  }

  // ----- literal bytes ------------------------------------------------------

  /** A frame byte by byte, for payloads shorter than 256 bytes. */
  lemma FrameBytes(kind: Byte, payload: Bytes)
    requires |payload| < 0x100
    ensures Encode(MakePacket(kind, payload)) == [0x4C, 0x4D, 0x53, 0x47, kind, 0, 0, 0, |payload|] + payload
  {
    BigEndianDigits(PROTOCOL_MAGIC);
    BigEndianDigits(|payload|);
  }

  /** The frames and kinds the two nodes answer and greet with. */
  lemma KnownFrames()
    ensures Encode(MakePing()) == [0x4C, 0x4D, 0x53, 0x47, 0xF0, 0, 0, 0, 0]
    ensures Encode(MakePong()) == [0x4C, 0x4D, 0x53, 0x47, 0xF1, 0, 0, 0, 0]
    ensures Encode(MakePacket(MSG_TEXT, [0x68, 0x69])) == [0x4C, 0x4D, 0x53, 0x47, 0x01, 0, 0, 0, 2, 0x68, 0x69]
    ensures Encode(MakePacket(MSG_RECEIPT, [])) == [0x4C, 0x4D, 0x53, 0x47, 0x03, 0, 0, 0, 0]
    ensures Encode(MakePacket(HANDSHAKE, [0x7B, 0x7D])) == [0x4C, 0x4D, 0x53, 0x47, 0xF4, 0, 0, 0, 2, 0x7B, 0x7D]
  {
    hide Encode;
    FrameBytes(0xF0, []);
    FrameBytes(0xF1, []);
    FrameBytes(0x01, [0x68, 0x69]);
    FrameBytes(0x03, []);
    FrameBytes(0xF4, [0x7B, 0x7D]);
  }

  /** The limit of the receiver: 16 MiB passes, one byte more does not, whatever the kind. */
  lemma LargestPayload(kind: Byte)
    ensures DeserializeHeader([0x4C, 0x4D, 0x53, 0x47, kind, 1, 0, 0, 0]) ==
      Some(Header(0x4C4D5347, kind, 0x100_0000))
    ensures DeserializeHeader([0x4C, 0x4D, 0x53, 0x47, kind, 1, 0, 0, 1]) == None
    ensures DeserializeHeader([0x4C, 0x4D, 0x53, 0x47, kind, 0, 1, 0, 0]) ==
      Some(Header(0x4C4D5347, kind, 0x1_0000))
    ensures DeserializeHeader([0x4C, 0x4D, 0x53, 0x48, kind, 0, 0, 0, 0]) == None
  {
  }

  // ----- which packets the format can carry ---------------------------------

  /** The wire form of a packet, as a receiver sees it. */
  function Normalised(p: Packet): Packet {
    Packet(WireHeader(p), p.payload)
  }

  /** What the receiver hands out: an accepted header and exactly the payload it announces. */
  predicate Canonical(p: Packet) {
    HeaderAccepted(p.header) && p.header.length == |p.payload|
  }

  /** Packets a sender can get through. */
  predicate Valid(p: Packet) {
    p.header.magic == PROTOCOL_MAGIC && |p.payload| <= MAX_PAYLOAD
  }

  /** Payloads of 4 GiB or more whose truncated length passes the receiver's check. */
  predicate Wraps(p: Packet) {
    HeaderAccepted(WireHeader(p)) && !Valid(p)
  }

  lemma NormalisedIsCanonical(p: Packet)
    ensures Canonical(Normalised(p)) <==> Valid(p)
    ensures Encode(Normalised(p)) == Encode(p)
    ensures Canonical(p) ==> Normalised(p) == p
    ensures Wraps(p) ==> |p.payload| >= U32_RANGE
  {
  }
}
