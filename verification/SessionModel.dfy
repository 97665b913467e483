/** One TCP session as a value: the reader and writer state machines of
    TcpSession.cpp together with the socket operations they have outstanding.

    A read operation completes when the last byte it asked for has been placed
    in its buffer, a write operation when its last byte has been taken; the
    completion handler is a later, separate step. Each handler is one atomic
    step. Once the session is closed no byte moves, so an operation that has
    not completed by then can only fail. */
module SessionModel {
  import opened Protocol
  import opened Frames

  datatype Read = ReadHeader(got: Bytes) | ReadPayload(got: Bytes)

  datatype Write = Write(buf: Bytes, done: nat)

  datatype Session = Session(
    started: bool,
    closed: bool,
    header: Header,           // current_header_
    pendingReads: seq<Read>,         // outstanding read operations
    stopped: Option<Read>,    // the read operation reading stopped at
    refused: bool,            // reading stopped at a bad header
    queue: seq<Bytes>,        // write_queue_
    writing: bool,            // writing_
    pendingWrites: seq<Write>,       // outstanding write operations
    lost: Bytes,              // the untaken part of a failed write
    sent: seq<Packet>,        // every packet passed to send
    wire: Bytes,              // every byte the socket has taken
    delivered: seq<Packet>,   // every packet passed to on_packet_
    reports: nat)             // calls of on_close_

  function Fresh(): Session {
    Session(false, false, Header(PROTOCOL_MAGIC, PING, 0), [], None, false, [], false, [], [], [], [], [], 0)
  }

  function Remove<T>(s: seq<T>, i: nat): seq<T>
    requires i < |s|
  {
    s[..i] + s[i + 1..]
  }

  // ----- handlers -----------------------------------------------------------

  function HandleError(s: Session): Session {
    if s.closed then s else s.(closed := true, reports := s.reports + 1)
  }

  function CloseSession(s: Session): Session {
    s.(closed := true)
  }

  function DoReadHeader(s: Session): Session {
    s.(pendingReads := s.pendingReads + [ReadHeader([])])
  }

  function DoReadPayload(s: Session): Session {
    s.(pendingReads := s.pendingReads + [ReadPayload([])])
  }

  function Deliver(s: Session, p: Packet): Session {
    s.(delivered := s.delivered + [p])
  }

  function DoWrite(s: Session): Session {
    if s.queue == [] then s.(writing := false)
    else s.(queue := s.queue[1..], pendingWrites := s.pendingWrites + [Write(s.queue[0], 0)])
  }

  function Send(s: Session, p: Packet): Session {
    var q := s.(queue := s.queue + [Encode(p)], sent := s.sent + [p]);
    if q.writing then q else DoWrite(q.(writing := true))
  }

  function Want(s: Session, r: Read): nat {
    if r.ReadHeader? then HEADER_SIZE else s.header.length
  }

  /** All bytes of the current frame that a read operation stands for. */
  function PartOf(s: Session, r: Read): Bytes {
    if r.ReadHeader? then r.got else HeaderBytes(s.header) + r.got
  }

  function HandleRead(s: Session, i: nat): Session
    requires i < |s.pendingReads|
  {
    var r := s.pendingReads[i];
    var t := s.(pendingReads := Remove(s.pendingReads, i));
    match r
    case ReadHeader(got) => (
      match DeserializeHeader(got)
      case None => HandleError(t.(stopped := Some(r), refused := true))
      case Some(h) =>
        var u := t.(header := h);
        if h.length == 0 then DoReadHeader(Deliver(u, Packet(h, []))) else DoReadPayload(u))
    case ReadPayload(got) => DoReadHeader(Deliver(t, Packet(t.header, got)))
  }

  lemma HandleHeaderRead(s: Session, got: Bytes)
    requires s.pendingReads == [ReadHeader(got)]
    ensures var t := s.(pendingReads := []);
      HandleRead(s, 0) ==
        match DeserializeHeader(got)
        case None => HandleError(t.(stopped := Some(ReadHeader(got)), refused := true))
        case Some(h) =>
          if h.length == 0 then DoReadHeader(Deliver(t.(header := h), Packet(h, [])))
          else DoReadPayload(t.(header := h))
  {
    assert Remove(s.pendingReads, 0) == [];
  }

  lemma HandlePayloadRead(s: Session, got: Bytes)
    requires s.pendingReads == [ReadPayload(got)]
    ensures HandleRead(s, 0) == DoReadHeader(Deliver(s.(pendingReads := []), Packet(s.header, got)))
  {
    assert Remove(s.pendingReads, 0) == [];
  }

  function HandleReadError(s: Session, i: nat): Session
    requires i < |s.pendingReads|
  {
    HandleError(s.(pendingReads := Remove(s.pendingReads, i), stopped := Some(s.pendingReads[i])))
  }

  function HandleWrite(s: Session, i: nat): Session
    requires i < |s.pendingWrites|
  {
    DoWrite(s.(pendingWrites := Remove(s.pendingWrites, i)))
  }

  function HandleWriteError(s: Session, i: nat): Session
    requires i < |s.pendingWrites| && s.pendingWrites[i].done <= |s.pendingWrites[i].buf|
  {
    var w := s.pendingWrites[i];
    HandleError(s.(pendingWrites := Remove(s.pendingWrites, i), lost := w.buf[w.done..]))
  }

  // ----- the socket moves bytes ---------------------------------------------

  function Take(s: Session, i: nat, k: nat): Session
    requires i < |s.pendingWrites| && s.pendingWrites[i].done + k <= |s.pendingWrites[i].buf|
  {
    var w := s.pendingWrites[i];
    s.(pendingWrites := s.pendingWrites[i := w.(done := w.done + k)],
       wire := s.wire + w.buf[w.done..w.done + k])
  }

  function Place(s: Session, i: nat, bytes: Bytes): Session
    requires i < |s.pendingReads|
  {
    s.(pendingReads := s.pendingReads[i := s.pendingReads[i].(got := s.pendingReads[i].got + bytes)])
  }

  // ----- steps and runs -----------------------------------------------------

  datatype Event =
    | Start
    | SendPacket(p: Packet)
    | BytesTaken(i: nat, k: nat)
    | WriteDone(i: nat)
    | WriteFailed(i: nat)
    | BytesPlaced(i: nat, bytes: Bytes)
    | ReadDone(i: nat)
    | ReadFailed(i: nat)
    | Close

  predicate Enabled(s: Session, e: Event) {
    match e
    case Start => !s.started
    case SendPacket(p) => true
    case BytesTaken(i, k) =>
      !s.closed && i < |s.pendingWrites| && 0 < k && s.pendingWrites[i].done + k <= |s.pendingWrites[i].buf|
    case WriteDone(i) => i < |s.pendingWrites| && s.pendingWrites[i].done == |s.pendingWrites[i].buf|
    case WriteFailed(i) => i < |s.pendingWrites| && s.pendingWrites[i].done < |s.pendingWrites[i].buf|
    case BytesPlaced(i, bytes) =>
      && !s.closed && i < |s.pendingReads| && bytes != []
      && |s.pendingReads[i].got| + |bytes| <= Want(s, s.pendingReads[i])
    case ReadDone(i) => i < |s.pendingReads| && |s.pendingReads[i].got| == Want(s, s.pendingReads[i])
    case ReadFailed(i) => i < |s.pendingReads| && |s.pendingReads[i].got| < Want(s, s.pendingReads[i])
    case Close => true
  }

  function Apply(s: Session, e: Event): Session
    requires Enabled(s, e)
  {
    match e
    case Start => DoReadHeader(s.(started := true))
    case SendPacket(p) => Send(s, p)
    case BytesTaken(i, k) => Take(s, i, k)
    case WriteDone(i) => HandleWrite(s, i)
    case WriteFailed(i) => HandleWriteError(s, i)
    case BytesPlaced(i, bytes) => Place(s, i, bytes)
    case ReadDone(i) => HandleRead(s, i)
    case ReadFailed(i) => HandleReadError(s, i)
    case Close => CloseSession(s)
  }

  predicate Legal(s: Session, es: seq<Event>)
    decreases |es|
  {
    es == [] || (Enabled(s, es[0]) && Legal(Apply(s, es[0]), es[1..]))
  }

  function Exec(s: Session, es: seq<Event>): Session
    requires Legal(s, es)
    decreases |es|
  {
    if es == [] then s else Exec(Apply(s, es[0]), es[1..])
  }

  // ----- what every reachable state keeps -----------------------------------

  /** The number of packets whose bytes have left the queue. */
  function Dequeued(s: Session): int {
    |s.sent| - |s.queue|
  }

  predicate QueueInv(s: Session) {
    && Dequeued(s) >= 0
    && forall j :: 0 <= j < |s.queue| ==> s.queue[j] == Encode(s.sent[Dequeued(s) + j])
  }

  /** At most one write is outstanding, it writes the last dequeued packet, and
      everything before it went out whole. */
  predicate WriterInv(s: Session) {
    && QueueInv(s)
    && var m := Dequeued(s);
    && |s.pendingWrites| <= 1
    && (!s.writing ==> s.queue == [] && s.pendingWrites == [] && s.lost == [])
    && if s.pendingWrites != [] then
         var w := s.pendingWrites[0];
         && s.lost == [] && m > 0 && w.buf == Encode(s.sent[m - 1]) && w.done <= |w.buf|
         && s.wire == EncodeAll(s.sent[..m - 1]) + w.buf[..w.done]
       else if s.writing then
         && s.closed && s.lost != [] && m > 0 && |s.lost| <= |Encode(s.sent[m - 1])|
         && s.wire + s.lost == EncodeAll(s.sent[..m])
       else
         s.wire == EncodeAll(s.sent)
  }

  /** At most one read is outstanding; reading stops only by closing; all
      delivered packets are canonical. */
  predicate ReaderInv(s: Session) {
    && |s.pendingReads| <= 1
    && (s.pendingReads != [] ==> s.started && s.stopped == None && ReadOk(s, s.pendingReads[0]))
    && (s.stopped.Some? ==> s.started && ReadOk(s, s.stopped.value))
    && (s.stopped.Some? ==> s.refused == (|s.stopped.value.got| == Want(s, s.stopped.value)))
    && (s.refused ==> s.stopped.Some? && s.stopped.value.ReadHeader? && DeserializeHeader(s.stopped.value.got).None?)
    && (!s.started ==> s.delivered == [])
    && (s.started && s.pendingReads == [] ==> s.stopped.Some? && s.closed)
    && (forall p <- s.delivered :: Canonical(p))
  }

  predicate ReadOk(s: Session, r: Read) {
    && |r.got| <= Want(s, r)
    && (r.ReadPayload? ==> HeaderAccepted(s.header) && s.header.length > 0)
  }

  predicate Inv(s: Session) {
    && WriterInv(s)
    && ReaderInv(s)
    && s.reports <= 1
    && (s.reports == 1 ==> s.closed)
  }

  lemma InvParts(s: Session)
    requires Inv(s)
    ensures ReaderInv(s) && WriterInv(s)
  {
  }

  lemma FreshInv()
    ensures Inv(Fresh())
  {
  }

  /** The writer's side of a state, for steps that leave it alone. */
  predicate SameWriter(s: Session, t: Session) {
    && t.queue == s.queue && t.writing == s.writing && t.pendingWrites == s.pendingWrites && t.lost == s.lost
    && t.sent == s.sent && t.wire == s.wire && (s.closed ==> t.closed)
  }

  lemma ReadDoneFrame(s: Session, i: nat)
    requires i < |s.pendingReads|
    ensures var t := HandleRead(s, i);
      SameWriter(s, t) && t.started == s.started && (s.closed ==> t.closed && t.reports == s.reports)
  {
    hide DeserializeHeader, HeaderBytes;
  }

  lemma WriterUntouched(s: Session, t: Session)
    requires WriterInv(s) && SameWriter(s, t)
    ensures WriterInv(t)
  {
  }

  lemma HandleHeaderKeepsReader(s: Session, got: Bytes)
    requires ReaderInv(s) && s.pendingReads == [ReadHeader(got)] && |got| == HEADER_SIZE
    ensures ReaderInv(HandleRead(s, 0))
  {
    hide DeserializeHeader, HeaderBytes, HandleRead;
    HandleHeaderRead(s, got);
    if DeserializeHeader(got).Some? {
      HeaderBytesOfDecoded(got);
    }
  }

  lemma HandleReadKeepsReader(s: Session, i: nat)
    requires ReaderInv(s) && Enabled(s, ReadDone(i))
    ensures ReaderInv(HandleRead(s, i))
  {
    hide DeserializeHeader;
    if s.pendingReads[i].ReadHeader? {
      HandleHeaderKeepsReader(s, s.pendingReads[i].got);
    } else {
      assert Remove(s.pendingReads, i) == [];
    }
  }

  lemma {:induction false} HandleReadKeeps(s: Session, i: nat)
    requires Inv(s) && Enabled(s, ReadDone(i))
    ensures Inv(HandleRead(s, i))
  {
    hide ReaderInv, WriterInv, DeserializeHeader;
    HandleReadKeepsReader(s, i) by { InvParts(s); }
    ReadDoneFrame(s, i);
    WriterUntouched(s, HandleRead(s, i));
    assert HandleRead(s, i).reports == s.reports || !s.closed;
  }

  lemma DoWriteKeeps(s: Session)
    requires QueueInv(s) && s.writing && s.pendingWrites == [] && s.lost == []
    requires s.wire == EncodeAll(s.sent[..Dequeued(s)])
    ensures WriterInv(DoWrite(s))
  {
    var t := DoWrite(s);
    if s.queue == [] {
      assert s.sent[..|s.sent|] == s.sent;
    } else {
      assert t.pendingWrites[0].buf[..0] == [];
    }
  }

  function Enqueue(s: Session, p: Packet): Session {
    s.(queue := s.queue + [Encode(p)], sent := s.sent + [p])
  }

  lemma EnqueueKeepsQueue(s: Session, p: Packet)
    requires QueueInv(s)
    ensures QueueInv(Enqueue(s, p)) && Dequeued(Enqueue(s, p)) == Dequeued(s)
    ensures forall n :: 0 <= n <= Dequeued(s) ==> Enqueue(s, p).sent[..n] == s.sent[..n]
  {
    hide Encode;
  }

  lemma EnqueueKeepsWriter(s: Session, p: Packet)
    requires WriterInv(s) && s.writing
    ensures WriterInv(Enqueue(s, p))
  {
    hide Encode, QueueInv, EncodeAll;
    EnqueueKeepsQueue(s, p);
    var m := Dequeued(s);
    assert m > 0 && Enqueue(s, p).sent[m - 1] == s.sent[m - 1] by { BusyHasDequeued(s); }
  }

  lemma BusyHasDequeued(s: Session)
    requires WriterInv(s) && s.writing
    ensures 0 < Dequeued(s) <= |s.sent|
  {
  }

  lemma IdleEnqueueKeepsWriter(s: Session, p: Packet)
    requires WriterInv(s) && !s.writing
    ensures WriterInv(Send(s, p))
  {
    hide Encode, EncodeAll;
    EnqueueKeepsQueue(s, p);
    assert s.sent[..Dequeued(s)] == s.sent;
    DoWriteKeeps(Enqueue(s, p).(writing := true));
  }

  lemma SendKeeps(s: Session, p: Packet)
    requires Inv(s)
    ensures Inv(Send(s, p))
  {
    hide WriterInv, Encode, DeserializeHeader;
    if s.writing {
      EnqueueKeepsWriter(s, p);
    } else {
      IdleEnqueueKeepsWriter(s, p);
    }
    assert ReaderInv(Send(s, p));
  }

  lemma WholeWriteKeeps(s: Session)
    requires WriterInv(s) && |s.pendingWrites| == 1 && s.pendingWrites[0].done == |s.pendingWrites[0].buf|
    ensures QueueInv(s) && s.writing && s.lost == [] && s.wire == EncodeAll(s.sent[..Dequeued(s)])
  {
    hide Encode;
    var w := s.pendingWrites[0];
    EncodeAllTake(s.sent, Dequeued(s));
    assert w.buf[..w.done] == w.buf;
  }

  lemma HandleWriteKeeps(s: Session, i: nat)
    requires Inv(s) && Enabled(s, WriteDone(i))
    ensures Inv(HandleWrite(s, i))
  {
    hide Encode, EncodeAll, WriterInv, ReaderInv;
    assert Remove(s.pendingWrites, i) == [] by { OneWrite(s); }
    var u := s.(pendingWrites := []);
    DoWriteKeeps(u) by { WholeWriteKeeps(s); }
    ReaderUntouched(s, DoWrite(u));
  }

  lemma OneWrite(s: Session)
    requires WriterInv(s) && s.pendingWrites != []
    ensures |s.pendingWrites| == 1 && s.writing && s.lost == []
  {
  }

  lemma ReaderUntouched(s: Session, t: Session)
    requires ReaderInv(s) && t.pendingReads == s.pendingReads && t.header == s.header && t.stopped == s.stopped
    requires t.refused == s.refused && t.delivered == s.delivered && t.started == s.started && t.closed == s.closed
    ensures ReaderInv(t)
  {
  }

  lemma HandleWriteErrorKeeps(s: Session, i: nat)
    requires Inv(s) && Enabled(s, WriteFailed(i))
    ensures Inv(HandleWriteError(s, i))
  {
    hide Encode, DeserializeHeader, HeaderBytes;
    var m, w := Dequeued(s), s.pendingWrites[0];
    EncodeAllTake(s.sent, m);
    Associative(EncodeAll(s.sent[..m - 1]), w.buf[..w.done], w.buf[w.done..]);
    assert w.buf[..w.done] + w.buf[w.done..] == w.buf;
  }

  lemma TakeKeeps(s: Session, i: nat, k: nat)
    requires Inv(s) && Enabled(s, BytesTaken(i, k))
    ensures Inv(Take(s, i, k))
  {
    hide Encode, DeserializeHeader, HeaderBytes;
    var w := s.pendingWrites[0];
    assert w.buf[..w.done] + w.buf[w.done..w.done + k] == w.buf[..w.done + k];
    Associative(EncodeAll(s.sent[..Dequeued(s) - 1]), w.buf[..w.done], w.buf[w.done..w.done + k]);
  }

  lemma HandleReadErrorKeeps(s: Session, i: nat)
    requires Inv(s) && Enabled(s, ReadFailed(i))
    ensures Inv(HandleReadError(s, i))
  {
    var t := HandleReadError(s, i);
    assert t.pendingReads == [];
    WriterUntouched(s, t);
  }

  /** Steps that neither complete an operation nor touch the writer. */
  lemma OtherStepKeeps(s: Session, e: Event)
    requires Inv(s) && Enabled(s, e)
    requires e.Start? || e.BytesPlaced? || e.Close?
    ensures Inv(Apply(s, e))
  {
    WriterUntouched(s, Apply(s, e));
  }

  /** Every step keeps the invariant ... */
  lemma StepKeeps(s: Session, e: Event)
    requires Inv(s) && Enabled(s, e)
    ensures Inv(Apply(s, e))
  {
    match e {
      case SendPacket(p) => SendKeeps(s, p);
      case BytesTaken(i, k) => TakeKeeps(s, i, k);
      case WriteDone(i) => HandleWriteKeeps(s, i);
      case WriteFailed(i) => HandleWriteErrorKeeps(s, i);
      case ReadDone(i) => HandleReadKeeps(s, i);
      case ReadFailed(i) => HandleReadErrorKeeps(s, i);
      case _ => OtherStepKeeps(s, e);
    }
  }

  /** ... and so does every run. */
  lemma {:induction false} RunKeeps(s: Session, es: seq<Event>)
    requires Inv(s) && Legal(s, es)
    ensures Inv(Exec(s, es))
    decreases |es|
  {
    if es != [] {
      StepKeeps(s, es[0]);
      RunKeeps(Apply(s, es[0]), es[1..]);
    }
  }
}
