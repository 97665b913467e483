/** What a node sends back when it is handed a packet, and over which session:
    pings are answered by the manager, text messages by the client of main.cpp,
    nothing else is. */
module ReplyPolicy {
  import opened Protocol
  import opened SessionModel
  import SessionTable

  const DELIVERED: Bytes := [100, 101, 108, 105, 118, 101, 114, 101, 100]  // "delivered"

  /** The receipt, byte by byte. */
  lemma ReceiptBytes()
    ensures Encode(MakePacket(MSG_RECEIPT, DELIVERED)) ==
      [0x4C, 0x4D, 0x53, 0x47, 0x03, 0, 0, 0, 9, 0x64, 0x65, 0x6C, 0x69, 0x76, 0x65, 0x72, 0x65, 0x64]
  {
    hide Encode;
    FrameBytes(0x03, DELIVERED);
  }

  function Reply(p: Packet): Option<Packet> {
    if p.header.kind == PING then Some(MakePong())
    else if p.header.kind == MSG_TEXT then Some(MakePacket(MSG_RECEIPT, DELIVERED))
    else None
  }

  function ReplyTo(ps: seq<Packet>): Option<Packet> {
    if ps == [] then None else Reply(ps[0])
  }

  /** Sending through the table: the session mapped at the address, if any, gets the packet. */
  ghost function SendVia<S>(states: map<S, Session>, mapped: map<SessionTable.Key, S>, ip: SessionTable.Key,
                            p: Packet): map<S, Session>
    requires mapped.Values <= states.Keys
  {
    if ip !in mapped then states else
    assert mapped[ip] in mapped.Values;
    states[mapped[ip] := Send(states[mapped[ip]], p)]
  }
}
