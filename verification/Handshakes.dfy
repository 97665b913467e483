/** A new connection begins with the handshakes of the two clients. */
module Handshakes {
  import opened Protocol
  import opened Frames
  import opened SessionModel
  import opened Delivery
  import opened Quiescence
  import opened Nodes
  import opened Answers

  /** Node s registers connection j, if it does, with this handshake. */
  predicate GreetsWith(ms: seq<Move>, s: Side, j: nat, text: Bytes) {
    forall m <- ms :: Registers(m, s, j) ==> m.hello == Some(text)
  }

  /** An end that has not been registered has sent nothing; a registered one has
      sent the handshake first. */
  predicate HandshakeFirst(me: Session, text: Bytes) {
    if me.started then me.sent != [] && me.sent[0] == MakePacket(HANDSHAKE, text) else me.sent == []
  }

  lemma {:induction false} HandshakeMove(n: Net, m: Move, s: Side, j: nat, text: Bytes)
    requires NodesInv(n) && MoveEnabled(n, m) && j < |n.conns| && HandshakeFirst(At(n.conns[j], s), text)
    requires Registers(m, s, j) ==> m.hello == Some(text)
    ensures |Make(n, m).conns| == |n.conns| && HandshakeFirst(At(Make(n, m).conns[j], s), text)
  {
    hide NodesInv, Make, Downs, RepliesTo, HandedBy, At, Mapped;
    MoveEnd(n, m, j, s);
    MoveSends(n, m, s, j);
    UnregisteredIsUnmapped(n, s, j);
  }

  lemma UnregisteredIsUnmapped(n: Net, s: Side, j: nat)
    requires NodesInv(n) && j < |n.conns|
    ensures !At(n.conns[j], s).started ==> Mapped(n, s) != Some(j)
  {
    EndIsMapped(n, s, j);
  }

  /** Over every run, whatever happens in it: the first packet a node sends on a
      connection is the handshake it registered the connection with, and it has
      sent it as soon as the connection is registered. */
  lemma {:induction false} HandshakeIsSentFirst(n: Net, ms: seq<Move>, s: Side, j: nat, text: Bytes)
    requires NodesInv(n) && Makes(n, ms) && j < |n.conns| && HandshakeFirst(At(n.conns[j], s), text)
    requires GreetsWith(ms, s, j, text)
    ensures |Made(n, ms).conns| == |n.conns| && HandshakeFirst(At(Made(n, ms).conns[j], s), text)
    decreases |ms|
  {
    hide NodesInv, MoveEnabled, Make, Downs, HandshakeFirst, Registers;
    if ms != [] {
      assert ms[0] in ms;
      HandshakeMove(n, ms[0], s, j, text);
      MoveMaps(n, ms[0], s);
      HandshakeIsSentFirst(Make(n, ms[0]), ms[1..], s, j, text);
    }
  }

  /** What is delivered first is what was sent first, if that was valid. */
  lemma FirstOfStream(c: Conn)
    requires ConnInv(c) && c.b.delivered != []
    ensures c.a.sent != []
    ensures Valid(c.a.sent[0]) ==> c.b.delivered[0] == Normalised(c.a.sent[0])
  {
    hide ConnInv, EncodeAll, Valid;
    SwapKeeps(c);
    DeliveredOfStream(c.Swap());
    var ps := c.a.sent;
    ParseOfGood(ps);
    if ps == [] {
      assert EncodeAll(ps) == [] by { NothingEncoded(); }
    } else if Valid(ps[0]) {
      assert ValidPrefix(ps)[0] == ps[0];
    }
  }

  lemma NothingEncoded()
    ensures EncodeAll([]) == []
  {
  }

  /** Over every run from a state in which node s has not registered connection j
      yet: the first packet the other end delivers on it, if it delivers any, is
      the handshake of s's client. */
  lemma {:induction false} HandshakeArrivesFirst(n: Net, ms: seq<Move>, s: Side, j: nat, text: Bytes)
    requires NodesInv(n) && Makes(n, ms) && j < |n.conns|
    requires !At(n.conns[j], s).started && At(n.conns[j], s).sent == []
    requires GreetsWith(ms, s, j, text) && |text| <= MAX_PAYLOAD
    ensures |Made(n, ms).conns| == |n.conns|
    ensures var peer := At(Made(n, ms).conns[j], Other(s));
      peer.delivered != [] ==> peer.delivered[0] == MakePacket(HANDSHAKE, text)
  {
    hide NodesInv, Makes, Made, GreetsWith, ConnInv;
    HandshakeIsSentFirst(n, ms, s, j, text);
    MovesKeep(n, ms);
    var f := Made(n, ms);
    EndIsMapped(f, s, j);
    var c := From(f.conns[j], s);
    SwapKeeps(f.conns[j]);
    if c.b.delivered != [] {
      FirstOfStream(c);
    }
  }
}
