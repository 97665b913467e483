/** What holds over whole runs of one session, whatever its environment does. */
module SessionRuns {
  import opened Protocol
  import opened Frames
  import opened SessionModel

  // ----- the inputs of a run ------------------------------------------------

  /** The packets a run passes to send, in order. */
  function PacketsSent(es: seq<Event>): seq<Packet> {
    if es == [] then []
    else SentBy(es[0]) + PacketsSent(es[1..])
  }

  function PlacedBy(e: Event): Bytes {
    if e.BytesPlaced? then e.bytes else []
  }

  /** The bytes a run puts into read buffers, in order. */
  function BytesReceived(es: seq<Event>): Bytes {
    if es == [] then []
    else PlacedBy(es[0]) + BytesReceived(es[1..])
  }

  // ----- writing ------------------------------------------------------------

  function Backlog(s: Session): nat {
    |s.queue| + |s.pendingWrites|
  }

  /** Bytes accepted by send that the socket has not taken. */
  function Untaken(s: Session): Bytes {
    (if s.pendingWrites != [] then UntakenOf(s.pendingWrites[0]) else s.lost) + Concat(s.queue)
  }

  function UntakenOf(w: Write): Bytes {
    if w.done <= |w.buf| then w.buf[w.done..] else []
  }

  lemma {:induction false} QueueIsTail(s: Session, n: nat)
    requires QueueInv(s) && n <= |s.queue|
    ensures Concat(s.queue[n..]) == EncodeAll(s.sent[Dequeued(s) + n..])
    decreases |s.queue| - n
  {
    if n < |s.queue| {
      QueueIsTail(s, n + 1);
      assert s.queue[n..][1..] == s.queue[n + 1..];
      assert s.sent[Dequeued(s) + n..][1..] == s.sent[Dequeued(s) + n + 1..];
    }
  }

  /** No byte is dropped, duplicated or reordered on its way to the socket. */
  lemma {:induction false} WriterConserves(s: Session)
    requires WriterInv(s)
    ensures s.wire + Untaken(s) == EncodeAll(s.sent)
  {
    var m := Dequeued(s);
    QueueIsTail(s, 0);
    assert s.queue[0..] == s.queue;
    EncodeAllSplit(s.sent, m);
    if s.pendingWrites != [] {
      var w := s.pendingWrites[0];
      EncodeAllTake(s.sent, m);
      Associative(EncodeAll(s.sent[..m - 1]), w.buf[..w.done], w.buf[w.done..]);
      assert w.buf[..w.done] + w.buf[w.done..] == w.buf;
      Associative(s.wire, w.buf[w.done..], Concat(s.queue));
    } else {
      Associative(s.wire, s.lost, Concat(s.queue));
    }
  }

  /** The number of packets whose frames the socket has been offered in full. */
  function WholeFrames(s: Session): int {
    if s.pendingWrites != [] || s.lost != [] then Dequeued(s) - 1 else Dequeued(s)
  }

  /** The socket sees whole frames in order, then at most one piece of the next one. */
  lemma WireIsWholeFrames(s: Session)
    requires WriterInv(s)
    ensures var n := WholeFrames(s);
      && 0 <= n <= |s.sent|
      && EncodeAll(s.sent[..n]) <= s.wire
      && (n == |s.sent| ==> s.wire == EncodeAll(s.sent))
      && (n < |s.sent| ==> s.wire[|EncodeAll(s.sent[..n])|..] <= Encode(s.sent[n]))
  {
    var n, m := WholeFrames(s), Dequeued(s);
    assert s.sent[..|s.sent|] == s.sent;
    if s.pendingWrites != [] {
      assert s.wire[|EncodeAll(s.sent[..n])|..] == s.pendingWrites[0].buf[..s.pendingWrites[0].done];
    } else if s.writing {
      EncodeAllTake(s.sent, m);
      var cut := |Encode(s.sent[n])| - |s.lost|;
      assert (s.wire + s.lost)[..|s.wire|] == s.wire;
      assert s.wire == EncodeAll(s.sent[..n]) + Encode(s.sent[n])[..cut];
    }
  }

  function SentBy(e: Event): seq<Packet> {
    if e.SendPacket? then [e.p] else []
  }

  lemma {:induction false} SentStep(s: Session, e: Event)
    requires Enabled(s, e)
    ensures Apply(s, e).sent == s.sent + SentBy(e)
    ensures s.wire <= Apply(s, e).wire
  {
    hide Encode, HandleRead;
    if e.ReadDone? {
      ReadDoneFrame(s, e.i);
    }
    assert s.sent + [] == s.sent;
  }

  /** Over every run, what was sent is exactly what the run passed to send, and
      the wire only grows. */
  lemma {:induction false} RunSends(s: Session, es: seq<Event>)
    requires Legal(s, es)
    ensures Exec(s, es).sent == s.sent + PacketsSent(es)
    ensures s.wire <= Exec(s, es).wire
    decreases |es|
  {
    if es == [] {
      assert s.sent + [] == s.sent;
    } else {
      SentStep(s, es[0]);
      RunSends(Apply(s, es[0]), es[1..]);
      Associative(s.sent, SentBy(es[0]), PacketsSent(es[1..]));
    }
  }

  function WritesEnded(es: seq<Event>): nat {
    if es == [] then 0
    else (if es[0].WriteDone? || es[0].WriteFailed? then 1 else 0) + WritesEnded(es[1..])
  }

  lemma BacklogStep(s: Session, e: Event)
    requires |s.pendingWrites| <= 1 && (!s.writing ==> s.pendingWrites == []) && Enabled(s, e)
    ensures Backlog(Apply(s, e)) + (if e.WriteDone? || e.WriteFailed? then 1 else 0) == Backlog(s) + |SentBy(e)|
  {
    hide Encode, HandleRead;
    if e.ReadDone? {
      ReadDoneFrame(s, e.i);
    }
  }

  /** Every completed write retires exactly one packet, and nothing else does. */
  lemma {:induction false} BacklogConserved(s: Session, es: seq<Event>)
    requires Inv(s) && Legal(s, es)
    ensures Backlog(Exec(s, es)) + WritesEnded(es) == Backlog(s) + |PacketsSent(es)|
    decreases |es|
  {
    if es != [] {
      StepKeeps(s, es[0]);
      BacklogConserved(Apply(s, es[0]), es[1..]);
      BacklogStep(s, es[0]);
    }
  }

  /** No lost wake-up: a session that is not writing has nothing to write, and
      one with something to write is writing unless a write failed. */
  lemma NoLostWakeUp(s: Session)
    requires Inv(s)
    ensures !s.writing <==> Backlog(s) == 0 && s.lost == []
    ensures Backlog(s) > 0 && s.lost == [] ==> |s.pendingWrites| == 1
  {
  }

  function Rest(s: Session): int {
    if s.pendingWrites == [] then 0 else |s.pendingWrites[0].buf| - s.pendingWrites[0].done
  }

  /** The socket takes what is left of the head buffer, or its completion runs. */
  function DrainStep(s: Session): Event {
    if Rest(s) > 0 then BytesTaken(0, Rest(s)) else WriteDone(0)
  }

  lemma DrainStepWorks(s: Session)
    requires Inv(s) && !s.closed && s.pendingWrites != []
    ensures var e := DrainStep(s);
      && Enabled(s, e) && Inv(Apply(s, e)) && !Apply(s, e).closed && Apply(s, e).sent == s.sent
      && Backlog(Apply(s, e)) == Backlog(s) - (if e.WriteDone? then 1 else 0)
      && (e.BytesTaken? ==> Rest(Apply(s, e)) == 0)
  {
    StepKeeps(s, DrainStep(s));
  }

  function DrainRun(s: Session): seq<Event>
    requires Inv(s) && !s.closed
    decreases Backlog(s), Rest(s)
  {
    if s.pendingWrites == [] then [] else
    DrainStepWorks(s);
    [DrainStep(s)] + DrainRun(Apply(s, DrainStep(s)))
  }

  /** The queue can always be emptied without any further input. */
  lemma {:induction false} CanDrain(s: Session)
    requires Inv(s) && !s.closed
    ensures Legal(s, DrainRun(s)) && PacketsSent(DrainRun(s)) == [] && WritesEnded(DrainRun(s)) == Backlog(s)
    ensures var t := Exec(s, DrainRun(s)); !t.writing && !t.closed && Backlog(t) == 0 && t.wire == EncodeAll(s.sent)
    decreases Backlog(s), Rest(s)
  {
    if s.pendingWrites != [] {
      var e := DrainStep(s);
      DrainStepWorks(s);
      CanDrain(Apply(s, e));
      assert DrainRun(s)[1..] == DrainRun(Apply(s, e));
    }
  }

  predicate NoWriteFails(es: seq<Event>) {
    forall e <- es :: !e.WriteFailed?
  }

  lemma {:induction false} NothingLost(s: Session, es: seq<Event>)
    requires Legal(s, es) && NoWriteFails(es)
    ensures Exec(s, es).lost == s.lost
    decreases |es|
  {
    hide Encode, HandleRead;
    if es != [] {
      assert es[0] in es;
      if es[0].ReadDone? {
        ReadDoneFrame(s, es[0].i);
      }
      NothingLost(Apply(s, es[0]), es[1..]);
    }
  }

  /** In every run without new packets and write errors, whatever else happens
      in it, at most as many writes complete as packets were queued or in
      flight; the writer is idle exactly when that many have completed, and
      then all bytes are out. */
  lemma Drains(s: Session, es: seq<Event>)
    requires Inv(s) && s.lost == [] && Legal(s, es)
    requires PacketsSent(es) == [] && NoWriteFails(es)
    ensures var t := Exec(s, es);
      && WritesEnded(es) <= Backlog(s)
      && (!t.writing <==> WritesEnded(es) == Backlog(s))
      && (!t.writing ==> t.queue == [] && t.wire == EncodeAll(s.sent))
  {
    var t := Exec(s, es);
    RunKeeps(s, es);
    BacklogConserved(s, es);
    NothingLost(s, es);
    NoLostWakeUp(t);
    RunSends(s, es);
    assert s.sent + [] == s.sent;
  }

  lemma FailedWriterStep(s: Session, e: Event)
    requires s.pendingWrites == [] && s.writing && Enabled(s, e)
    ensures var t := Apply(s, e);
      && t.pendingWrites == [] && t.writing && t.wire == s.wire && t.lost == s.lost
      && |t.queue| == |s.queue| + |SentBy(e)|
  {
    hide Encode, HandleRead;
    if e.ReadDone? {
      ReadDoneFrame(s, e.i);
    }
  }

  /** After a failed write `writing_` stays set for good: every later packet is
      queued and no byte ever leaves again. */
  lemma {:induction false} FailedWriterIsStuck(s: Session, es: seq<Event>)
    requires s.pendingWrites == [] && s.writing && Legal(s, es)
    ensures var t := Exec(s, es);
      t.wire == s.wire && t.writing && |t.queue| == |s.queue| + |PacketsSent(es)|
    decreases |es|
  {
    if es != [] {
      FailedWriterStep(s, es[0]);
      FailedWriterIsStuck(Apply(s, es[0]), es[1..]);
    }
  }

  // ----- reading ------------------------------------------------------------

  /** The bytes of the frame being read, or of the one in which reading stopped. */
  function CurrentPart(s: Session): Bytes {
    if s.pendingReads != [] then PartOf(s, s.pendingReads[0])
    else if s.stopped.Some? then PartOf(s, s.stopped.value)
    else []
  }

  /** Every byte ever put into a read buffer, rebuilt from what was delivered. */
  function Arrived(s: Session): Bytes {
    EncodeAll(s.delivered) + CurrentPart(s)
  }

  /** The packet a completed read is about to hand out, if any. */
  function AboutToDeliver(s: Session): (r: seq<Packet>)
    ensures |r| <= 1
  {
    if s.pendingReads == [] then [] else
    match s.pendingReads[0]
    case ReadHeader(got) => (
      match DeserializeHeader(got)
      case None => []
      case Some(h) => if h.length == 0 then [Packet(h, [])] else [])
    case ReadPayload(got) => if |got| == s.header.length then [Packet(s.header, got)] else []
  }

  lemma HeaderReadMovesNoByte(s: Session, got: Bytes)
    requires s.pendingReads == [ReadHeader(got)] && |got| == HEADER_SIZE
    ensures Arrived(HandleRead(s, 0)) == Arrived(s)
    ensures HandleRead(s, 0).delivered == s.delivered + AboutToDeliver(s)
  {
    hide HeaderBytes, DeserializeHeader, BigEndian;
    assert Remove(s.pendingReads, 0) == [];
    if DeserializeHeader(got).Some? {
      var h := DeserializeHeader(got).value;
      HeaderBytesOfDecoded(got);
      if h.length == 0 {
        var p := Packet(h, []);
        EncodeAllSnoc(s.delivered, p);
        assert Encode(p) == got;
      }
    }
  }

  lemma PayloadReadMovesNoByte(s: Session, got: Bytes)
    requires s.pendingReads == [ReadPayload(got)] && |got| == s.header.length
    ensures Arrived(HandleRead(s, 0)) == Arrived(s)
    ensures HandleRead(s, 0).delivered == s.delivered + AboutToDeliver(s)
  {
    assert Remove(s.pendingReads, 0) == [];
    var p := Packet(s.header, got);
    EncodeAllSnoc(s.delivered, p);
    assert WireHeader(p) == s.header;
    assert CurrentPart(HandleRead(s, 0)) == [];
  }

  lemma PlacingAddsBytes(s: Session, bytes: Bytes)
    requires |s.pendingReads| == 1
    ensures Arrived(Place(s, 0, bytes)) == Arrived(s) + bytes
  {
    var r := s.pendingReads[0];
    if r.ReadPayload? {
      Associative(HeaderBytes(s.header), r.got, bytes);
    }
    Associative(EncodeAll(s.delivered), CurrentPart(s), bytes);
  }

  lemma FailingMovesNoByte(s: Session)
    requires |s.pendingReads| == 1
    ensures Arrived(HandleReadError(s, 0)) == Arrived(s)
  {
    assert Remove(s.pendingReads, 0) == [];
  }

  predicate SameReader(s: Session, t: Session) {
    && t.pendingReads == s.pendingReads && t.header == s.header && t.stopped == s.stopped && t.delivered == s.delivered
  }

  lemma WriterStepLeavesReader(s: Session, e: Event)
    requires Enabled(s, e)
    requires e.SendPacket? || e.BytesTaken? || e.WriteDone? || e.WriteFailed? || e.Close?
    ensures SameReader(s, Apply(s, e))
  {
  }

  lemma ReadDoneMovesNoByte(s: Session, i: nat)
    requires ReaderInv(s) && Enabled(s, ReadDone(i))
    ensures Arrived(HandleRead(s, i)) == Arrived(s)
    ensures HandleRead(s, i).delivered == s.delivered + AboutToDeliver(s)
  {
    if s.pendingReads[0].ReadHeader? {
      HeaderReadMovesNoByte(s, s.pendingReads[0].got);
    } else {
      PayloadReadMovesNoByte(s, s.pendingReads[0].got);
    }
  }

  lemma {:induction false} ArrivedStep(s: Session, e: Event)
    requires ReaderInv(s) && Enabled(s, e)
    ensures Arrived(Apply(s, e)) == Arrived(s) + PlacedBy(e)
  {
    match e {
      case Start => assert CurrentPart(Apply(s, e)) == CurrentPart(s);
      case ReadDone(i) => ReadDoneMovesNoByte(s, i);
      case BytesPlaced(i, bytes) => PlacingAddsBytes(s, bytes);
      case ReadFailed(i) => FailingMovesNoByte(s);
      case _ => WriterStepLeavesReader(s, e);
    }
    assert Arrived(s) + [] == Arrived(s);
  }

  /** The reader accounts for every byte it was given, over every run. */
  lemma {:induction false} RunReceives(s: Session, es: seq<Event>)
    requires Inv(s) && Legal(s, es)
    ensures Arrived(Exec(s, es)) == Arrived(s) + BytesReceived(es)
    decreases |es|
  {
    if es != [] {
      StepKeeps(s, es[0]);
      ArrivedStep(s, es[0]);
      RunReceives(Apply(s, es[0]), es[1..]);
      Associative(Arrived(s), PlacedBy(es[0]), BytesReceived(es[1..]));
    } else {
      assert Arrived(s) + [] == Arrived(s);
    }
  }

  lemma CompletePartParses(s: Session)
    requires ReaderInv(s) && s.pendingReads != [] && |s.pendingReads[0].got| == Want(s, s.pendingReads[0])
    ensures ParseStream(CurrentPart(s)).packets == AboutToDeliver(s)
  {
    hide HeaderBytes, DeserializeHeader, ParseStream;
    match s.pendingReads[0]
    case ReadHeader(got) => HeaderAloneParses(got);
    case ReadPayload(got) =>
      var p := Packet(s.header, got);
      ParseFrame(p, []);
      EmptyParses();
      assert WireHeader(p) == s.header;
      assert Encode(p) + [] == CurrentPart(s);
  }

  lemma EmptyParses()
    ensures ParseStream([]) == Parsed([], Partial([]))
  {
  }

  /** Nine bytes by themselves are a packet only if they announce no payload. */
  lemma HeaderAloneParses(got: Bytes)
    requires |got| == HEADER_SIZE
    ensures ParseStream(got).packets ==
      match DeserializeHeader(got)
      case None => []
      case Some(h) => if h.length == 0 then [Packet(h, [])] else []
  {
    hide DeserializeHeader;
    assert got[..HEADER_SIZE] == got && got[HEADER_SIZE..HEADER_SIZE] == [] && got[HEADER_SIZE..] == [];
    EmptyParses();
  }

  /** A read that is not complete stands for no whole frame. */
  lemma PartialFrame(s: Session, r: Read)
    requires |r.got| < Want(s, r)
    requires r.ReadPayload? ==> HeaderAccepted(s.header)
    ensures ParseStream(PartOf(s, r)) == Parsed([], Partial(PartOf(s, r)))
  {
    if r.ReadPayload? {
      assert PartOf(s, r)[..HEADER_SIZE] == HeaderBytes(s.header);
      DecodeHeaderBytes(s.header);
    }
  }

  lemma RefusedHeader(got: Bytes)
    requires |got| == HEADER_SIZE && DeserializeHeader(got).None?
    ensures ParseStream(got) == Parsed([], Refused(got))
  {
    assert got[..HEADER_SIZE] == got;
  }

  /** The outstanding read has not got all its bytes. */
  predicate Waiting(s: Session) {
    s.pendingReads != [] && |s.pendingReads[0].got| < Want(s, s.pendingReads[0])
  }

  /** The bytes of the frame being read are not all there, and may never be. */
  predicate Unfinished(s: Session) {
    Waiting(s) || (s.pendingReads == [] && !s.refused)
  }

  lemma CurrentPartParses(s: Session)
    requires ReaderInv(s)
    ensures ParseStream(CurrentPart(s)).packets == AboutToDeliver(s)
    ensures s.refused ==> ParseStream(CurrentPart(s)).tail == Refused(s.stopped.value.got)
    ensures Unfinished(s) ==> ParseStream(CurrentPart(s)).tail == Partial(CurrentPart(s))
  {
    if s.pendingReads != [] {
      if |s.pendingReads[0].got| == Want(s, s.pendingReads[0]) {
        CompletePartParses(s);
      } else {
        PartialFrame(s, s.pendingReads[0]);
      }
    } else if s.stopped.Some? {
      if s.refused {
        RefusedHeader(s.stopped.value.got);
      } else {
        PartialFrame(s, s.stopped.value);
      }
    }
  }

  /** In every state the reader has delivered what the reference parser finds
      in the bytes so far, except for the packet whose handler has yet to run,
      and it is where the parser is: in the middle of the same frame, or
      stopped at the same header. How the bytes were cut into reads does not
      matter. */
  lemma ReaderIsParser(s: Session)
    requires ReaderInv(s)
    ensures ParseStream(Arrived(s)).packets == s.delivered + AboutToDeliver(s)
    ensures s.refused ==> ParseStream(Arrived(s)).tail == Refused(s.stopped.value.got)
    ensures Unfinished(s) ==> ParseStream(Arrived(s)).tail == Partial(CurrentPart(s))
  {
    ParseFrames(s.delivered, CurrentPart(s));
    CurrentPartParses(s);
  }

  lemma FreshArrived()
    ensures Arrived(Fresh()) == []
  {
  }

  lemma ArrivedFromStart(es: seq<Event>)
    requires Legal(Fresh(), es)
    ensures Inv(Exec(Fresh(), es)) && Arrived(Exec(Fresh(), es)) == BytesReceived(es)
  {
    hide Inv, Arrived;
    FreshInv();
    RunReceives(Fresh(), es);
    RunKeeps(Fresh(), es);
    FreshArrived();
    assert [] + BytesReceived(es) == BytesReceived(es);
  }

  /** Over a run from the start, what was delivered is what the received bytes
      mean, short of at most the one packet whose handler has yet to run, and the
      reader is where the parser is. */
  lemma DeliveredFromReceived(es: seq<Event>)
    requires Legal(Fresh(), es)
    ensures var s := Exec(Fresh(), es);
      var r := ParseStream(BytesReceived(es));
      && s.delivered + AboutToDeliver(s) == r.packets
      && (s.refused ==> s.stopped.Some? && r.tail == Refused(s.stopped.value.got))
      && (Unfinished(s) ==> r.tail == Partial(CurrentPart(s)))
  {
    ArrivedFromStart(es);
    ReaderIsParser(Exec(Fresh(), es));
  }

  // ----- the reader's state is a function of the bytes ----------------------

  function LastHeader(ps: seq<Packet>): Header {
    if ps == [] then Fresh().header else ps[|ps| - 1].header
  }

  /** Between frames, current_header_ is the header of the last packet. */
  predicate HeaderFollows(s: Session) {
    var between :=
      if s.pendingReads != [] then s.pendingReads[0].ReadHeader?
      else s.stopped == None || s.stopped.value.ReadHeader?;
    between ==> s.header == LastHeader(s.delivered)
  }

  lemma {:induction false} HeaderFollowsStep(s: Session, e: Event)
    requires ReaderInv(s) && HeaderFollows(s) && Enabled(s, e)
    ensures HeaderFollows(Apply(s, e))
  {
    hide DeserializeHeader, HeaderBytes, Encode;
    match e {
      case ReadDone(i) => assert Remove(s.pendingReads, i) == [];
      case ReadFailed(i) => assert Remove(s.pendingReads, i) == [];
      case Start =>
      case BytesPlaced(i, bytes) =>
      case _ => WriterStepLeavesReader(s, e);
    }
  }

  lemma {:induction false} HeaderFollowsRun(s: Session, es: seq<Event>)
    requires Inv(s) && HeaderFollows(s) && Legal(s, es)
    ensures HeaderFollows(Exec(s, es))
    decreases |es|
  {
    hide HeaderFollows;
    if es != [] {
      StepKeeps(s, es[0]);
      HeaderFollowsStep(s, es[0]) by { InvParts(s); }
      HeaderFollowsRun(Apply(s, es[0]), es[1..]);
    }
  }

  /** The state after the handler of a completed read, if there is one, has run. */
  function CaughtUp(s: Session): Session {
    if s.pendingReads != [] && !Waiting(s) then HandleRead(s, 0) else s
  }

  lemma CaughtUpKeeps(s: Session)
    requires ReaderInv(s) && HeaderFollows(s)
    ensures var u := CaughtUp(s);
      && ReaderInv(u) && HeaderFollows(u) && u.started == s.started
      && Arrived(u) == Arrived(s) && u.delivered == s.delivered + AboutToDeliver(s) && AboutToDeliver(u) == []
  {
    hide ReaderInv, HeaderFollows, Arrived, AboutToDeliver, HandleRead;
    if s.pendingReads != [] && !Waiting(s) {
      CompleteIsEnabled(s);
      HandleReadKeepsReader(s, 0);
      HeaderFollowsStep(s, ReadDone(0));
      ReadDoneMovesNoByte(s, 0);
      HandledReadIsEmpty(s, 0);
      ReadDoneFrame(s, 0);
    } else {
      IncompleteDeliversNothing(s);
      assert s.delivered + [] == s.delivered;
    }
  }

  lemma CompleteIsEnabled(s: Session)
    requires ReaderInv(s) && s.pendingReads != [] && !Waiting(s)
    ensures Enabled(s, ReadDone(0))
  {
  }

  lemma IncompleteDeliversNothing(s: Session)
    requires s.pendingReads == [] || Waiting(s)
    ensures AboutToDeliver(s) == []
  {
  }

  /** No read has failed: the reader waits, has a handler to run, or has refused a header. */
  predicate StillReading(s: Session) {
    s.started && (s.stopped.Some? ==> s.refused)
  }

  lemma CaughtUpStillReading(s: Session)
    requires ReaderInv(s) && StillReading(s)
    ensures StillReading(CaughtUp(s)) && (CaughtUp(s).refused || Waiting(CaughtUp(s)))
  {
    if s.pendingReads != [] && !Waiting(s) {
      assert Remove(s.pendingReads, 0) == [];
    }
  }

  /** Two headers that are encoded alike and were accepted are the same. */
  lemma HeaderBytesInjective(g: Header, h: Header)
    requires HeaderAccepted(g) && HeaderAccepted(h) && HeaderBytes(g) == HeaderBytes(h)
    ensures g == h
  {
    DecodeHeaderBytes(g);
    DecodeHeaderBytes(h);
  }

  /** The unfinished frame determines the read in progress and the header. */
  lemma SamePartSameRead(u: Session, v: Session)
    requires ReaderInv(u) && ReaderInv(v) && HeaderFollows(u) && HeaderFollows(v)
    requires u.delivered == v.delivered && CurrentPart(u) == CurrentPart(v)
    requires (Waiting(u) && Waiting(v)) || (u.refused && v.refused)
    ensures SameReader(u, v)
  {
    hide HeaderBytes, HeaderAccepted, DeserializeHeader;
    if Waiting(u) && u.pendingReads[0].ReadPayload? {
      assert v.pendingReads[0].ReadPayload?;
      assert CurrentPart(u)[..HEADER_SIZE] == HeaderBytes(u.header);
      assert CurrentPart(v)[..HEADER_SIZE] == HeaderBytes(v.header);
      HeaderBytesInjective(u.header, v.header);
      Cancel(HeaderBytes(u.header), u.pendingReads[0].got, v.pendingReads[0].got);
    }
  }

  /** The whole reader, up to the handler that may still have to run, is
      determined by the bytes that have arrived. */
  lemma SameBytesSameReader(s: Session, t: Session)
    requires ReaderInv(s) && ReaderInv(t) && HeaderFollows(s) && HeaderFollows(t)
    requires Arrived(s) == Arrived(t)
    ensures var u, v := CaughtUp(s), CaughtUp(t);
      && u.delivered == v.delivered && CurrentPart(u) == CurrentPart(v)
      && (StillReading(s) && StillReading(t) ==> SameReader(u, v) && u.refused == v.refused)
  {
    hide ReaderInv, HeaderFollows, CurrentPart, AboutToDeliver, CaughtUp, SameReader;
    var u, v := CaughtUp(s), CaughtUp(t);
    CaughtUpKeeps(s);
    CaughtUpKeeps(t);
    ReaderIsParser(u);
    ReaderIsParser(v);
    assert u.delivered + [] == u.delivered && v.delivered + [] == v.delivered;
    Cancel(EncodeAll(u.delivered), CurrentPart(u), CurrentPart(v));
    if StillReading(s) && StillReading(t) {
      CaughtUpStillReading(s);
      CaughtUpStillReading(t);
      WaitingIsNotRefused(u);
      WaitingIsNotRefused(v);
      SamePartSameRead(u, v);
    }
  }

  lemma WaitingIsNotRefused(s: Session)
    requires ReaderInv(s)
    ensures Waiting(s) ==> !s.refused
  {
  }

  /** Two runs that receive the same bytes, in whatever pieces and with whatever
      writes, errors and closes in between, find the same packets in them, are
      left with the same unfinished frame and, unless a read failed, end in the
      same reader state once the handler of a completed read has run. */
  lemma ChunkingIndependent(es: seq<Event>, fs: seq<Event>)
    requires Legal(Fresh(), es) && Legal(Fresh(), fs)
    requires BytesReceived(es) == BytesReceived(fs)
    ensures var s, t := Exec(Fresh(), es), Exec(Fresh(), fs); var u, v := CaughtUp(s), CaughtUp(t);
      && s.delivered + AboutToDeliver(s) == t.delivered + AboutToDeliver(t)
      && u.delivered == v.delivered && CurrentPart(u) == CurrentPart(v)
      && (StillReading(s) && StillReading(t) ==> SameReader(u, v) && u.refused == v.refused)
      && (Waiting(s) && Waiting(t) ==> SameReader(s, t))
  {
    hide Inv, HeaderFollows, Arrived, SameReader;
    var s, t := Exec(Fresh(), es), Exec(Fresh(), fs);
    DeliveredFromReceived(es);
    DeliveredFromReceived(fs);
    ReachableReader(es);
    ReachableReader(fs);
    SameBytesSameReader(s, t);
    if Waiting(s) && Waiting(t) {
      WaitingStillReads(s);
      WaitingStillReads(t);
    }
  }

  lemma WaitingStillReads(s: Session)
    requires ReaderInv(s) && Waiting(s)
    ensures StillReading(s) && CaughtUp(s) == s
  {
  }

  lemma ReachableReader(es: seq<Event>)
    requires Legal(Fresh(), es)
    ensures var s := Exec(Fresh(), es); ReaderInv(s) && HeaderFollows(s) && Arrived(s) == BytesReceived(es)
  {
    hide Inv, Arrived;
    FreshInv();
    HeaderFollowsRun(Fresh(), es);
    ArrivedFromStart(es);
    InvParts(Exec(Fresh(), es));
  }

  // ----- after the session is closed ----------------------------------------

  lemma {:induction false} ClosedStepKeepsReader(s: Session, e: Event)
    requires ReaderInv(s) && s.closed && Enabled(s, e)
    ensures ReaderInv(Apply(s, e))
  {
    match e {
      case ReadDone(i) => HandleReadKeepsReader(s, i);
      case ReadFailed(i) =>
        assert Remove(s.pendingReads, i) == [];
      case _ =>
    }
  }

  lemma ClosedStepIsQuiet(s: Session, e: Event)
    requires s.closed && Enabled(s, e)
    ensures Apply(s, e).closed && Apply(s, e).reports == s.reports && Apply(s, e).wire == s.wire
  {
    hide Encode, HandleRead;
    if e.ReadDone? {
      ReadDoneFrame(s, e.i);
    }
  }

  lemma OtherClosedStep(s: Session, e: Event)
    requires ReaderInv(s) && s.closed && Enabled(s, e) && !e.ReadDone?
    ensures var t := Apply(s, e);
      t.delivered == s.delivered && (AboutToDeliver(t) == AboutToDeliver(s) || AboutToDeliver(t) == [])
  {
    match e {
      case ReadFailed(i) => assert Remove(s.pendingReads, i) == [];
      case Start => assert Apply(s, e).pendingReads == [ReadHeader([])];
      case _ => WriterStepLeavesReader(s, e);
    }
  }

  lemma HandledReadIsEmpty(s: Session, i: nat)
    requires ReaderInv(s) && Enabled(s, ReadDone(i))
    ensures AboutToDeliver(HandleRead(s, i)) == []
  {
    assert Remove(s.pendingReads, i) == [];
    if s.pendingReads[0].ReadHeader? && DeserializeHeader(s.pendingReads[0].got).Some? {
      HeaderBytesOfDecoded(s.pendingReads[0].got);
    }
  }

  /** Once a session is closed, by close() or by an error, at most one more
      packet is delivered in any continuation, and it can only be the one whose
      last byte had arrived. No byte is sent and on_close_ is not called again. */
  lemma {:induction false} AfterClose(s: Session, es: seq<Event>)
    requires ReaderInv(s) && s.closed && Legal(s, es)
    ensures var t := Exec(s, es);
      && t.closed && t.reports == s.reports && t.wire == s.wire
      && (t.delivered == s.delivered || t.delivered == s.delivered + AboutToDeliver(s))
    decreases |es|
  {
    if es != [] {
      ClosedStepIsQuiet(s, es[0]);
      ClosedStepKeepsReader(s, es[0]);
      AfterClose(Apply(s, es[0]), es[1..]);
      if es[0].ReadDone? {
        ReadDoneMovesNoByte(s, es[0].i);
        HandledReadIsEmpty(s, es[0].i);
      } else {
        OtherClosedStep(s, es[0]);
      }
    }
  }

  /** The late packet is real: whenever a whole frame is in the buffer when the
      session closes, its handler still runs and delivers it. */
  lemma LateDeliveryHappens(s: Session)
    requires ReaderInv(s) && AboutToDeliver(s) != []
    ensures var t := CloseSession(s);
      && Legal(t, [ReadDone(0)])
      && Exec(t, [ReadDone(0)]).delivered == s.delivered + AboutToDeliver(s)
  {
    var t := CloseSession(s);
    ReadDoneMovesNoByte(t, 0);
    var u := Apply(t, ReadDone(0));
    assert [ReadDone(0)][1..] == [];
    assert Exec(u, []) == u;
  }

  /** A started session that has received a whole ping. */
  function WithPing(): Session {
    Fresh().(started := true, pendingReads := [ReadHeader(Encode(MakePing()))])
  }

  lemma PingIsReceived()
    ensures Legal(Fresh(), [Start, BytesPlaced(0, Encode(MakePing()))])
    ensures Exec(Fresh(), [Start, BytesPlaced(0, Encode(MakePing()))]) == WithPing()
  {
    hide HeaderBytes;
    var frame, s1 := Encode(MakePing()), Apply(Fresh(), Start);
    var e := BytesPlaced(0, frame);
    assert [] + frame == frame;
    assert [Start, e][1..] == [e] && [e][1..] == [];
    assert Legal(WithPing(), []) && Exec(WithPing(), []) == WithPing();
    assert Legal(s1, [e]) && Exec(s1, [e]) == WithPing();
  }

  lemma PingIsDue()
    ensures AboutToDeliver(WithPing()) == [MakePing()] && ReaderInv(WithPing())
  {
    hide HeaderBytes, DeserializeHeader, Encode;
    var frame := Encode(MakePing());
    EncodeParts(MakePing(), []);
    assert frame == (frame + [])[..HEADER_SIZE];
    DecodeHeaderBytes(MakePing().header);
  }

  /** A run from the start in which it happens: a ping has arrived whole, the
      session is closed, and the ping is delivered all the same. */
  lemma LateDeliveryRun()
    ensures var es := [Start, BytesPlaced(0, Encode(MakePing()))]; var s := Exec(Fresh(), es);
      && Legal(Fresh(), es) && s.delivered == []
      && Legal(s, [Close, ReadDone(0)])
      && Exec(s, [Close, ReadDone(0)]).closed && Exec(s, [Close, ReadDone(0)]).delivered == [MakePing()]
  {
    hide Encode, HandleRead, AboutToDeliver, ReaderInv;
    PingIsReceived();
    PingIsDue();
    var s := WithPing();
    var c := CloseSession(s);
    LateDeliveryHappens(s);
    ReadDoneFrame(c, 0);
    assert Exec(c, [ReadDone(0)]) == HandleRead(c, 0) by { assert [ReadDone(0)][1..] == []; }
    assert [Close, ReadDone(0)][1..] == [ReadDone(0)];
    assert [] + [MakePing()] == [MakePing()];
  }

  /** close() is silent for good, whatever completes or fails later. */
  lemma CloseNeverReports(s: Session, es: seq<Event>)
    requires Inv(s) && !s.closed && Legal(CloseSession(s), es)
    ensures Exec(CloseSession(s), es).reports == 0
  {
    AfterClose(CloseSession(s), es);
  }

  /** The event ends the session with an error: an operation fails or a header is refused. */
  predicate IsError(s: Session, e: Event) {
    || e.ReadFailed?
    || e.WriteFailed?
    || (e.ReadDone? && e.i < |s.pendingReads| && s.pendingReads[e.i].ReadHeader?
        && DeserializeHeader(s.pendingReads[e.i].got).None?)
  }

  /** The errors of a run that find the session open. */
  function ErrorsOnOpen(s: Session, es: seq<Event>): nat
    requires Legal(s, es)
    decreases |es|
  {
    if es == [] then 0
    else (if !s.closed && IsError(s, es[0]) then 1 else 0) + ErrorsOnOpen(Apply(s, es[0]), es[1..])
  }

  lemma ErrorStep(s: Session, e: Event)
    requires Enabled(s, e)
    ensures Apply(s, e).reports == s.reports + if !s.closed && IsError(s, e) then 1 else 0
    ensures Apply(s, e).closed <==> s.closed || IsError(s, e) || e.Close?
  {
    hide HandleRead, IsError, DoWrite;
    match e {
      case ReadDone(i) => ReadDoneErrors(s, i);
      case WriteFailed(i) => assert IsError(s, e) by { OperationErrors(s, e); }
      case ReadFailed(i) => assert IsError(s, e) by { OperationErrors(s, e); }
      case _ =>
        assert !IsError(s, e) by { OperationErrors(s, e); }
        if e.SendPacket? || e.WriteDone? {
          DoWriteIsQuiet(s, e);
        }
    }
  }

  lemma DoWriteIsQuiet(s: Session, e: Event)
    requires Enabled(s, e) && (e.SendPacket? || e.WriteDone?)
    ensures Apply(s, e).reports == s.reports && Apply(s, e).closed == s.closed
  {
    hide Encode;
  }

  lemma OperationErrors(s: Session, e: Event)
    requires !e.ReadDone?
    ensures IsError(s, e) <==> e.ReadFailed? || e.WriteFailed?
  {
  }

  lemma ReadDoneErrors(s: Session, i: nat)
    requires Enabled(s, ReadDone(i))
    ensures var t, failed := HandleRead(s, i), IsError(s, ReadDone(i));
      t.reports == s.reports + (if !s.closed && failed then 1 else 0) && (t.closed <==> s.closed || failed)
  {
    hide DeserializeHeader, HeaderBytes;
  }

  lemma {:induction false} ReportsAreErrors(s: Session, es: seq<Event>)
    requires Legal(s, es)
    ensures Exec(s, es).reports == s.reports + ErrorsOnOpen(s, es)
    decreases |es|
  {
    hide IsError, Apply, Enabled;
    if es != [] {
      ErrorStep(s, es[0]);
      ReportsAreErrors(Apply(s, es[0]), es[1..]);
    }
  }

  /** Over every run from the start, on_close_ is called once for every error
      that finds the session open, and there is at most one: every such error
      is reported, nothing else is. */
  lemma ReportsOnce(es: seq<Event>)
    requires Legal(Fresh(), es)
    ensures var s := Exec(Fresh(), es);
      s.reports == ErrorsOnOpen(Fresh(), es) <= 1 && (s.reports == 1 ==> s.closed)
  {
    FreshInv();
    RunKeeps(Fresh(), es);
    ReportsAreErrors(Fresh(), es);
  }
}
