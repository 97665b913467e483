/** Two sessions joined by a TCP connection: end-to-end delivery.

    TCP is a reliable FIFO byte stream in each direction. It may hold any
    number of bytes, hand them over in any pieces, and stop at any point: a
    stream is cut when the reader's outstanding read fails with bytes still on
    the way. */
module Delivery {
  import opened Protocol
  import opened Frames
  import opened SessionModel
  import opened SessionRuns

  datatype Conn = Conn(a: Session, b: Session, ab: Bytes, ba: Bytes) {
    function Swap(): Conn {
      Conn(b, a, ba, ab)
    }
  }

  datatype Side = A | B

  function Other(s: Side): Side {
    if s == A then B else A
  }

  datatype Action =
    | Local(e: Event)
    | Push(i: nat, k: nat)   // the socket takes k bytes of an outstanding write
    | Pull(i: nat, k: nat)   // k bytes of the stream reach an outstanding read

  function Opened(): Conn {
    Conn(Fresh(), Fresh(), [], [])
  }

  predicate EnabledAtA(c: Conn, x: Action) {
    match x
    case Local(e) => !e.BytesTaken? && !e.BytesPlaced? && Enabled(c.a, e)
    case Push(i, k) => Enabled(c.a, BytesTaken(i, k))
    case Pull(i, k) => k <= |c.ba| && Enabled(c.a, BytesPlaced(i, c.ba[..k]))
  }

  function ApplyAtA(c: Conn, x: Action): Conn
    requires EnabledAtA(c, x)
  {
    match x
    case Local(e) => c.(a := Apply(c.a, e))
    case Push(i, k) =>
      var w := c.a.pendingWrites[i];
      c.(a := Take(c.a, i, k), ab := c.ab + w.buf[w.done..w.done + k])
    case Pull(i, k) => c.(a := Place(c.a, i, c.ba[..k]), ba := c.ba[k..])
  }

  predicate CanAct(c: Conn, s: Side, x: Action) {
    if s == A then EnabledAtA(c, x) else EnabledAtA(c.Swap(), x)
  }

  function Act(c: Conn, s: Side, x: Action): Conn
    requires CanAct(c, s, x)
  {
    if s == A then ApplyAtA(c, x) else ApplyAtA(c.Swap(), x).Swap()
  }

  type Trace = seq<(Side, Action)>

  predicate Possible(c: Conn, t: Trace)
    decreases |t|
  {
    t == [] || (CanAct(c, t[0].0, t[0].1) && Possible(Act(c, t[0].0, t[0].1), t[1..]))
  }

  function Outcome(c: Conn, t: Trace): Conn
    requires Possible(c, t)
    decreases |t|
  {
    if t == [] then c else Outcome(Act(c, t[0].0, t[0].1), t[1..])
  }

  /** The packets one side passes to send in a trace. */
  function Inputs(t: Trace, s: Side): seq<Packet> {
    if t == [] then [] else
    (if t[0].0 == s && t[0].1.Local? then SentBy(t[0].1.e) else []) + Inputs(t[1..], s)
  }

  // ----- conservation -------------------------------------------------------

  /** What one side has put on the wire is what the other has got, then the stream. */
  predicate LineInv(tx: Session, line: Bytes, rx: Session) {
    tx.wire == Arrived(rx) + line
  }

  predicate ConnInv(c: Conn) {
    Inv(c.a) && Inv(c.b) && LineInv(c.a, c.ab, c.b) && LineInv(c.b, c.ba, c.a)
  }

  lemma OpenedInv()
    ensures ConnInv(Opened())
  {
    FreshInv();
    FreshArrived();
  }

  lemma LocalKeepsWire(s: Session, e: Event)
    requires Enabled(s, e) && !e.BytesTaken?
    ensures Apply(s, e).wire == s.wire
  {
    hide Encode, HandleRead;
    if e.ReadDone? {
      ReadDoneFrame(s, e.i);
    }
  }

  lemma {:induction false} ActAtAKeeps(c: Conn, x: Action)
    requires ConnInv(c) && EnabledAtA(c, x)
    ensures ConnInv(ApplyAtA(c, x))
  {
    hide Inv, Apply, Arrived, Enabled;
    match x {
      case Local(e) =>
        StepKeeps(c.a, e);
        ArrivedStep(c.a, e) by { InvParts(c.a); }
        LocalKeepsWire(c.a, e);
        assert Arrived(c.a) + [] == Arrived(c.a);
      case Push(i, k) => PushKeeps(c, i, k);
      case Pull(i, k) => PullKeeps(c, i, k);
    }
  }

  lemma DeliveredAreCanonical(s: Session)
    requires Inv(s)
    ensures forall p <- s.delivered :: Canonical(p)
  {
  }

  lemma {:induction false} PushKeeps(c: Conn, i: nat, k: nat)
    requires ConnInv(c) && Enabled(c.a, BytesTaken(i, k))
    ensures ConnInv(ApplyAtA(c, Push(i, k)))
  {
    hide Inv, Arrived;
    var w := c.a.pendingWrites[i];
    StepKeeps(c.a, BytesTaken(i, k));
    ArrivedStep(c.a, BytesTaken(i, k)) by { InvParts(c.a); }
    assert Arrived(c.a) + [] == Arrived(c.a);
    Associative(Arrived(c.b), c.ab, w.buf[w.done..w.done + k]);
  }

  lemma {:induction false} PullKeeps(c: Conn, i: nat, k: nat)
    requires ConnInv(c) && k <= |c.ba| && Enabled(c.a, BytesPlaced(i, c.ba[..k]))
    ensures ConnInv(ApplyAtA(c, Pull(i, k)))
  {
    hide Inv, Arrived;
    StepKeeps(c.a, BytesPlaced(i, c.ba[..k]));
    ArrivedStep(c.a, BytesPlaced(i, c.ba[..k])) by { InvParts(c.a); }
    Associative(Arrived(c.a), c.ba[..k], c.ba[k..]);
    assert c.ba == c.ba[..k] + c.ba[k..];
  }

  lemma {:induction false} ActKeeps(c: Conn, s: Side, x: Action)
    requires ConnInv(c) && CanAct(c, s, x)
    ensures ConnInv(Act(c, s, x))
  {
    ActAtAKeeps(if s == A then c else c.Swap(), x);
  }

  lemma {:induction false} TraceKeeps(c: Conn, t: Trace)
    requires ConnInv(c) && Possible(c, t)
    ensures ConnInv(Outcome(c, t))
    decreases |t|
  {
    if t != [] {
      ActKeeps(c, t[0].0, t[0].1);
      TraceKeeps(Act(c, t[0].0, t[0].1), t[1..]);
    }
  }

  lemma {:induction false} ActSends(c: Conn, s: Side, x: Action)
    requires CanAct(c, s, x)
    ensures var d := Act(c, s, x);
      && d.a.sent == c.a.sent + (if s == A && x.Local? then SentBy(x.e) else [])
      && d.b.sent == c.b.sent + (if s == B && x.Local? then SentBy(x.e) else [])
  {
    var me := if s == A then c.a else c.b;
    if x.Local? {
      SentStep(me, x.e);
    }
  }

  lemma {:induction false} TraceSends(c: Conn, t: Trace)
    requires Possible(c, t)
    ensures Outcome(c, t).a.sent == c.a.sent + Inputs(t, A)
    ensures Outcome(c, t).b.sent == c.b.sent + Inputs(t, B)
    decreases |t|
  {
    hide Act, CanAct;
    if t == [] {
      assert c.a.sent + [] == c.a.sent && c.b.sent + [] == c.b.sent;
    } else {
      var s, x := t[0].0, t[0].1;
      ActSends(c, s, x);
      TraceSends(Act(c, s, x), t[1..]);
      Associative(c.a.sent, if s == A && x.Local? then SentBy(x.e) else [], Inputs(t[1..], A));
      Associative(c.b.sent, if s == B && x.Local? then SentBy(x.e) else [], Inputs(t[1..], B));
    }
  }

  /** Decoded, partly read, in the stream, in flight or abandoned, and queued:
      together exactly the bytes of everything that was sent. */
  lemma {:induction false} BytesConserved(c: Conn)
    requires ConnInv(c)
    ensures EncodeAll(c.b.delivered) + (CurrentPart(c.b) + c.ab + Untaken(c.a)) == EncodeAll(c.a.sent)
  {
    hide Inv, Untaken;
    WriterConserves(c.a) by { InvParts(c.a); }
    assert c.a.wire == EncodeAll(c.b.delivered) + CurrentPart(c.b) + c.ab;
    Associative(EncodeAll(c.b.delivered), CurrentPart(c.b), c.ab);
    Associative(EncodeAll(c.b.delivered), CurrentPart(c.b) + c.ab, Untaken(c.a));
  }

  // ----- refinement of a FIFO queue of packets ------------------------------

  /** In every reachable state the packets handed out on one side are, in order
      and without loss or duplication, the first of those sent on the other,
      exactly as long as they are no more than the valid prefix; and they are no
      more when the first bad packet is refused. */
  lemma {:induction false} DeliveredArePrefix(c: Conn)
    requires ConnInv(c)
    ensures var n, ps := |c.b.delivered|, c.a.sent;
      && (n <= |ValidPrefix(ps)| <==> n <= |ps| && c.b.delivered == NormaliseAll(ps[..n]))
      && (FirstBadIsRefused(ps) ==> n <= |ValidPrefix(ps)|)
  {
    hide Inv, Untaken, CurrentPart, EncodeAll, FirstBadIsRefused;
    BytesConserved(c);
    DeliveredAreCanonical(c.b);
    DecodedArePrefix(c.b.delivered, CurrentPart(c.b) + c.ab + Untaken(c.a), c.a.sent);
  }

  /** The same in terms of the whole list of sent packets. */
  lemma {:induction false} DeliveredAgainstSent(c: Conn)
    requires ConnInv(c)
    ensures c.b.delivered <= NormaliseAll(c.a.sent) <==> |c.b.delivered| <= |ValidPrefix(c.a.sent)|
    ensures FirstBadIsRefused(c.a.sent) ==> |c.b.delivered| <= |ValidPrefix(c.a.sent)|
  {
    hide Inv, Untaken, CurrentPart, EncodeAll, FirstBadIsRefused;
    BytesConserved(c);
    DeliveredAreCanonical(c.b);
    DecodedAgainstSent(c.b.delivered, CurrentPart(c.b) + c.ab + Untaken(c.a), c.a.sent);
  }

  /** The packets that came out are, in order, the first of those that went in. */
  predicate IsFifo(ins: seq<Packet>, outs: seq<Packet>) {
    outs <= NormaliseAll(ins)
  }

  /** End to end, over every trace of two fresh sessions, in both directions:
      the connection is a FIFO queue of packets as long as no packet behind the
      valid ones comes out, and none does when the first bad one is refused. */
  lemma FifoRefinement(t: Trace)
    requires Possible(Opened(), t)
    ensures var c := Outcome(Opened(), t); var ps, qs := Inputs(t, A), Inputs(t, B);
      && (IsFifo(ps, c.b.delivered) <==> |c.b.delivered| <= |ValidPrefix(ps)|)
      && (IsFifo(qs, c.a.delivered) <==> |c.a.delivered| <= |ValidPrefix(qs)|)
      && (FirstBadIsRefused(ps) ==> IsFifo(ps, c.b.delivered))
      && (FirstBadIsRefused(qs) ==> IsFifo(qs, c.a.delivered))
  {
    hide ConnInv, Outcome, Possible, FirstBadIsRefused;
    var c := Outcome(Opened(), t);
    OpenedInv();
    TraceKeeps(Opened(), t);
    TraceSends(Opened(), t);
    assert c.a.sent == Inputs(t, A) && c.b.sent == Inputs(t, B);
    DeliveredAgainstSent(c);
    SwapKeeps(c);
    DeliveredAgainstSent(c.Swap());
  }

  lemma SwapKeeps(c: Conn)
    ensures ConnInv(c.Swap()) <==> ConnInv(c)
  {
  }

  // ----- exactly what is delivered ------------------------------------------

  lemma {:induction false} NothingMoreToDecode(ds: seq<Packet>, rest: Bytes, ps: seq<Packet>)
    requires forall d <- ds :: Canonical(d)
    requires EncodeAll(ds) + rest == EncodeAll(ps)
    requires ParseStream(rest).packets == []
    ensures ParseStream(EncodeAll(ps)) == Parsed(ds, ParseStream(rest).tail)
  {
    ParseFrames(ds, rest);
    assert ds + [] == ds;
  }

  /** The receiver refused a header: whatever is still in the stream or unsent,
      it has delivered exactly what the bytes of all sent packets mean. */
  lemma RefusedHasParsedAll(c: Conn)
    requires ConnInv(c) && c.b.refused
    ensures var r := ParseStream(EncodeAll(c.a.sent)); c.b.delivered == r.packets && r.tail.Refused?
  {
    hide Inv, Untaken;
    BytesConserved(c);
    InvParts(c.b);
    DeliveredAreCanonical(c.b);
    var got := c.b.stopped.value.got;
    RefusedHeader(got);
    assert CurrentPart(c.b) == got;
    Associative(got, c.ab, Untaken(c.a));
    ParseAppend(got, c.ab + Untaken(c.a));
    NothingMoreToDecode(c.b.delivered, got + c.ab + Untaken(c.a), c.a.sent);
  }

  /** So has a receiver that waits for more when everything has been written and read. */
  lemma SilentHasParsedAll(c: Conn)
    requires ConnInv(c) && !c.a.writing && c.ab == [] && Waiting(c.b)
    ensures var r := ParseStream(EncodeAll(c.a.sent)); c.b.delivered == r.packets && r.tail.Partial?
  {
    BytesConserved(c);
    var part := CurrentPart(c.b);
    PartialFrame(c.b, c.b.pendingReads[0]);
    assert part + c.ab + Untaken(c.a) == part;
    NothingMoreToDecode(c.b.delivered, part, c.a.sent);
  }

  /** The whole stream yields the valid prefix and nothing more exactly if the
      first bad packet is refused. */
  lemma ParsedIsExact(ps: seq<Packet>)
    ensures var r := ParseStream(EncodeAll(ps));
      && (FirstBadIsRefused(ps) <==> |r.packets| <= |ValidPrefix(ps)|)
      && (FirstBadIsRefused(ps) <==> r.packets == NormaliseAll(ValidPrefix(ps)))
      && (FirstBadIsRefused(ps) ==> (r.tail.Refused? <==> ValidPrefix(ps) != ps))
  {
    hide EncodeAll, Wraps;
    ParseOfGood(ps);
    ParseOfBad(ps);
    ParseOfSent(ps);
    assert |ValidPrefix(ps)| == |ps| ==> ValidPrefix(ps) == ps;
  }

  /** When the receiver refuses a header, whatever is still on the way, it has
      delivered exactly the valid packets before the first bad one if and only if
      that one's length field has not wrapped; and then there is a bad one. */
  lemma RefusalIsExact(c: Conn)
    requires ConnInv(c) && c.b.refused
    ensures FirstBadIsRefused(c.a.sent) <==> c.b.delivered == NormaliseAll(ValidPrefix(c.a.sent))
    ensures FirstBadIsRefused(c.a.sent) ==> ValidPrefix(c.a.sent) != c.a.sent
  {
    hide FirstBadIsRefused, ConnInv;
    RefusedHasParsedAll(c);
    ParsedIsExact(c.a.sent);
  }

  /** Everything has been written and read and the receiver waits for more: it
      has delivered all packets if and only if no length field has wrapped, and
      then all were valid. */
  lemma SilenceIsExact(c: Conn)
    requires ConnInv(c) && !c.a.writing && c.ab == [] && Waiting(c.b)
    ensures FirstBadIsRefused(c.a.sent) <==> c.b.delivered == NormaliseAll(c.a.sent)
    ensures FirstBadIsRefused(c.a.sent) ==> ValidPrefix(c.a.sent) == c.a.sent
  {
    hide FirstBadIsRefused, ConnInv;
    SilentHasParsedAll(c);
    ParsedIsExact(c.a.sent);
    DeliveredAgainstSent(c);
    var ps := c.a.sent;
    if c.b.delivered == NormaliseAll(ps) {
      assert |ValidPrefix(ps)| == |ps|;
    }
  }

  // ----- traces without errors ----------------------------------------------

  predicate IsFailure(x: Action) {
    x.Local? && (x.e.Close? || x.e.ReadFailed? || x.e.WriteFailed?)
  }

  predicate NoFailures(t: Trace) {
    forall i :: 0 <= i < |t| ==> !IsFailure(t[i].1)
  }

  lemma ClosesOnlyByRefusing(s: Session, e: Event)
    requires Enabled(s, e) && !IsFailure(Local(e)) && (s.closed ==> s.refused)
    ensures Apply(s, e).closed ==> Apply(s, e).refused
  {
    hide Encode, DeserializeHeader, HeaderBytes;
  }

  lemma {:induction false} ClosedMeansRefused(c: Conn, t: Trace)
    requires Possible(c, t) && NoFailures(t)
    requires (c.a.closed ==> c.a.refused) && (c.b.closed ==> c.b.refused)
    ensures var d := Outcome(c, t); (d.a.closed ==> d.a.refused) && (d.b.closed ==> d.b.refused)
    decreases |t|
  {
    hide Apply, Enabled;
    if t != [] {
      var s, x := t[0].0, t[0].1;
      assert !IsFailure(x);
      if x.Local? {
        ClosesOnlyByRefusing(if s == A then c.a else c.b, x.e);
      }
      ClosedMeansRefused(Act(c, s, x), t[1..]);
    }
  }

  /** No byte can move from the packets of side A towards the handler of side B. */
  ghost predicate Settled(c: Conn) {
    && (forall i, k :: !CanAct(c, A, Push(i, k)))
    && (forall i :: !CanAct(c, A, Local(WriteDone(i))))
    && (forall i, k :: !CanAct(c, B, Pull(i, k)))
    && (forall i :: !CanAct(c, B, Local(ReadDone(i))))
  }

  lemma BusyWriterMoves(c: Conn)
    requires Inv(c.a) && !c.a.closed && c.a.writing
    ensures c.a.pendingWrites != []
    ensures var w := c.a.pendingWrites[0];
      && w.done <= |w.buf|
      && (CanAct(c, A, Push(0, |w.buf| - w.done)) || CanAct(c, A, Local(WriteDone(0))))
  {
  }

  lemma BusyReaderMoves(c: Conn)
    requires Inv(c.b) && !c.b.closed && c.b.started
    ensures c.b.pendingReads != []
    ensures var r := c.b.pendingReads[0];
      (|r.got| < Want(c.b, r) && c.ab == []) || CanAct(c, B, Pull(0, 1)) || CanAct(c, B, Local(ReadDone(0)))
  {
    var r := c.b.pendingReads[0];
    if |r.got| < Want(c.b, r) && c.ab != [] {
      assert |c.ab[..1]| == 1;
    }
  }

  lemma SettledIsSilent(c: Conn)
    requires ConnInv(c) && Settled(c) && !c.a.closed && !c.b.closed && c.b.started
    ensures !c.a.writing && c.ab == []
    ensures Waiting(c.b)
  {
    hide Inv, CanAct;
    if c.a.writing {
      BusyWriterMoves(c);
    }
    BusyReaderMoves(c);
  }

  /** At rest and without failures the receiver has delivered exactly what the
      bytes of all sent packets mean, and is closed exactly if they end in a
      header it must refuse. */
  lemma RestHasParsedAll(c: Conn)
    requires ConnInv(c) && Settled(c) && !c.a.closed && c.b.started && (c.b.closed ==> c.b.refused)
    ensures var r := ParseStream(EncodeAll(c.a.sent));
      c.b.delivered == r.packets && (c.b.closed <==> r.tail.Refused?)
  {
    hide ConnInv, Settled;
    if c.b.closed {
      RefusedHasParsedAll(c);
    } else {
      SettledIsSilent(c);
      SilentHasParsedAll(c);
    }
  }

  /** The connection as the sender on side s sees it. */
  function From(c: Conn, s: Side): Conn {
    if s == A then c else c.Swap()
  }

  /** The law of the transport. For either direction, any packets, any
      interleaving and any cutting of the stream: when the bytes have come to
      rest and nothing failed, the receiver has delivered exactly the longest
      prefix of valid packets if and only if the first bad packet, if any, is
      one the receiver refuses; no other condition makes the connection a FIFO
      queue; and the receiver is then closed if and only if there was a bad one.
      In any case it has delivered what the bytes mean. */
  lemma ExactDelivery(t: Trace, s: Side)
    requires Possible(Opened(), t) && NoFailures(t)
    requires var c := From(Outcome(Opened(), t), s); Settled(c) && !c.a.closed && c.b.started
    ensures var c := From(Outcome(Opened(), t), s); var ps := Inputs(t, s);
      && (FirstBadIsRefused(ps) <==> c.b.delivered == NormaliseAll(ValidPrefix(ps)))
      && (FirstBadIsRefused(ps) <==> IsFifo(ps, c.b.delivered))
      && (FirstBadIsRefused(ps) ==> (c.b.closed <==> ValidPrefix(ps) != ps))
      && c.b.delivered == ParseStream(EncodeAll(ps)).packets
      && (c.b.closed <==> ParseStream(EncodeAll(ps)).tail.Refused?)
  {
    hide Outcome, Possible, ConnInv, Settled, FirstBadIsRefused, NoFailures, Inputs;
    var c, ps := From(Outcome(Opened(), t), s), Inputs(t, s);
    OpenedInv();
    TraceKeeps(Opened(), t);
    TraceSends(Opened(), t);
    assert c.a.sent == ps;
    ClosedMeansRefused(Opened(), t);
    SwapKeeps(Outcome(Opened(), t));
    RestHasParsedAll(c);
    DeliveredAgainstSent(c);
    ParsedIsExact(ps);
  }
}
