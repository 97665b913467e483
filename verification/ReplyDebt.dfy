/** How many steps the bytes of a stream can still cause on the side that reads
    them, and why sending a reply never adds to it, not even behind a frame that
    is misread: a reply cannot be mistaken for a request. */
module ReplyDebt {
  import opened Protocol
  import opened Frames
  import opened ReplyPolicy

  /** Steps a packet can still cause on the other side once it is handed out:
      three per byte of the reply (taken, moved, handled) and its completion. */
  function ReplyCost(p: Packet): (r: nat)
    ensures r <= MAX_REPLY_COST
  {
    match Reply(p)
    case None => 0
    case Some(r) => 3 * |Encode(r)| + 1
  }

  const MAX_REPLY_COST: nat := 3 * (HEADER_SIZE + |DELIVERED|) + 1

  function Owed(ps: seq<Packet>): nat {
    if ps == [] then 0 else ReplyCost(ps[0]) + Owed(ps[1..])
  }

  lemma {:induction false} OwedAppend(ps: seq<Packet>, qs: seq<Packet>)
    ensures Owed(ps + qs) == Owed(ps) + Owed(qs)
  {
    hide ReplyCost;
    if ps == [] {
      assert ps + qs == qs;
    } else {
      OwedAppend(ps[1..], qs);
      assert (ps + qs)[1..] == ps[1..] + qs;
    }
  }

  predicate IsReply(p: Packet) {
    p == MakePong() || p == MakePacket(MSG_RECEIPT, DELIVERED)
  }

  /** The replies are valid and call for no reply. */
  lemma RepliesEnd(p: Packet)
    requires Reply(p).Some?
    ensures var r := Reply(p).value;
      IsReply(r) && Valid(r) && ReplyCost(r) == 0 && ReplyCost(p) == 3 * |Encode(r)| + 1
  {
  }

  const FIRST_BYTE: Byte := 0x4C   // of the magic number

  /** An unfinished frame at the end of a stream costs nothing if it is bound to
      be refused, and at most one reply otherwise. */
  function TailCost(t: Tail): nat {
    if t.Partial? && t.bytes != [] && t.bytes[0] == FIRST_BYTE then MAX_REPLY_COST else 0
  }

  lemma MagicStarts()
    ensures BigEndian(PROTOCOL_MAGIC, 4) == [FIRST_BYTE, 0x4D, 0x53, 0x47]
  {
    BigEndianDigits(PROTOCOL_MAGIC);
  }

  /** The first byte of the magic number occurs in a reply only at its start. */
  lemma ReplyStartsOnce(p: Packet)
    requires IsReply(p)
    ensures var e := Encode(p); e[0] == FIRST_BYTE && forall i :: 0 < i < |e| ==> e[i] != FIRST_BYTE
  {
    MagicStarts();
    BigEndianDigits(0);
    BigEndianDigits(|DELIVERED|);
    var n := BigEndian(|p.payload|, 4);
    assert p.header.length == Truncated(|p.payload|) == |p.payload|;
    assert Encode(p) == BigEndian(PROTOCOL_MAGIC, 4) + [p.header.kind] + n + p.payload;
    assert forall b <- n :: b != FIRST_BYTE;
    assert forall b <- p.payload :: b != FIRST_BYTE;
  }

  lemma AcceptedStart(data: Bytes)
    requires |data| == HEADER_SIZE && DeserializeHeader(data).Some?
    ensures data[0] == FIRST_BYTE
  {
    WriteOfRead(data, 0);
    MagicStarts();
    assert data[0..4][0] == data[0];
  }

  /** What does not start like the magic number is refused. */
  lemma WrongStart(s: Bytes)
    requires s != [] && s[0] != FIRST_BYTE
    ensures ParseStream(s) == if |s| < HEADER_SIZE then Parsed([], Partial(s)) else Parsed([], Refused(s))
    ensures TailCost(ParseStream(s).tail) == 0
  {
    hide DeserializeHeader;
    if |s| >= HEADER_SIZE && DeserializeHeader(s[..HEADER_SIZE]).Some? {
      AcceptedStart(s[..HEADER_SIZE]);
    }
  }

  /** What is left of a stream holds no whole frame. */
  lemma {:induction false} TailIsPartial(s: Bytes)
    requires ParseStream(s).tail.Partial?
    ensures var b := ParseStream(s).tail.bytes; ParseStream(b) == Parsed([], Partial(b))
  {
    hide DeserializeHeader;
    if |s| >= HEADER_SIZE && DeserializeHeader(s[..HEADER_SIZE]).Some? {
      var size := HEADER_SIZE + DeserializeHeader(s[..HEADER_SIZE]).value.length;
      if |s| >= size {
        TailIsPartial(s[size..]);
      }
    }
  }

  /** The first frame of a stream, if it is whole, and what comes behind it. */
  lemma FirstFrame(s: Bytes, h: Header)
    requires |s| >= HEADER_SIZE && DeserializeHeader(s[..HEADER_SIZE]) == Some(h)
    ensures var size := HEADER_SIZE + h.length;
      if |s| < size then ParseStream(s) == Parsed([], Partial(s))
      else ParseStream(s) == Prepend([Packet(h, s[HEADER_SIZE..size])], ParseStream(s[size..]))
  {
    hide DeserializeHeader;
  }

  /** An unfinished frame ends, if at all, inside the bytes that follow it. */
  lemma EndsBehind(b: Bytes, e: Bytes, h: Header)
    requires ParseStream(b) == Parsed([], Partial(b)) && |e| >= HEADER_SIZE
    requires DeserializeHeader((b + e)[..HEADER_SIZE]) == Some(h)
    ensures HEADER_SIZE + h.length > |b|
  {
    hide DeserializeHeader;
    if |b| >= HEADER_SIZE {
      assert (b + e)[..HEADER_SIZE] == b[..HEADER_SIZE];
      FirstFrame(b, h);
    }
  }

  /** Behind an unfinished frame that may yet be accepted, a reply completes at
      most that frame; whatever is left of the reply is refused. */
  lemma {:induction false} ReplyBehindFrame(b: Bytes, p: Packet)
    requires IsReply(p) && ParseStream(b) == Parsed([], Partial(b)) && b != [] && b[0] == FIRST_BYTE
    ensures var r := ParseStream(b + Encode(p)); Owed(r.packets) + TailCost(r.tail) <= MAX_REPLY_COST
  {
    hide DeserializeHeader, Encode, ReplyCost, ParseStream, IsReply;
    var e := Encode(p);
    var x := b + e;
    match DeserializeHeader(x[..HEADER_SIZE])
    case None => RefusedAtOnce(x);
    case Some(h) =>
      var size := HEADER_SIZE + h.length;
      FirstFrame(x, h);
      EndsBehind(b, e, h);
      if |x| >= size {
        var f, rest := Packet(h, x[HEADER_SIZE..size]), x[size..];
        assert rest == e[size - |b|..];
        ReplyStartsOnce(p);
        if rest == [] {
          NothingLeft();
        } else {
          WrongStart(rest);
        }
        assert [f] + [] == [f] && [f][1..] == [];
        assert Owed([f]) == ReplyCost(f);
      }
  }

  lemma RefusedAtOnce(s: Bytes)
    requires |s| >= HEADER_SIZE && DeserializeHeader(s[..HEADER_SIZE]).None?
    ensures ParseStream(s) == Parsed([], Refused(s))
  {
  }

  lemma NothingLeft()
    ensures ParseStream([]) == Parsed([], Partial([]))
  {
  }

  lemma {:induction false} ReplyBehindTail(b: Bytes, p: Packet)
    requires IsReply(p) && ParseStream(b) == Parsed([], Partial(b))
    ensures var r := ParseStream(b + Encode(p)); Owed(r.packets) + TailCost(r.tail) <= TailCost(Partial(b))
  {
    hide DeserializeHeader, Encode, ParseStream;
    if b == [] {
      assert WireHeader(p) == p.header;
      ParseFrame(p, []);
      NothingLeft();
      assert b + Encode(p) == Encode(p) + [];
      assert [p] + [] == [p] && [p][1..] == [];
      assert Owed([p]) == ReplyCost(p) == 0;
    } else if b[0] == FIRST_BYTE {
      ReplyBehindFrame(b, p);
    } else {
      WrongStart(b + Encode(p));
    }
  }

  /** Appending a reply to any stream never raises what the stream can cause. */
  lemma {:induction false} ReplyAddsNoDebt(s: Bytes, p: Packet)
    requires IsReply(p)
    ensures var r, q := ParseStream(s), ParseStream(s + Encode(p));
      && r.packets <= q.packets
      && Owed(q.packets[|r.packets|..]) + TailCost(q.tail) <= TailCost(r.tail)
  {
    hide Encode, ParseStream, IsReply;
    var r, q := ParseStream(s), ParseStream(s + Encode(p));
    ParseAppend(s, Encode(p));
    match r.tail
    case Partial(b) =>
      TailIsPartial(s);
      ReplyBehindTail(b, p);
      assert q.packets[|r.packets|..] == ParseStream(b + Encode(p)).packets;
    case Refused(b) =>
      assert q.packets[|r.packets|..] == [];
  }
}
