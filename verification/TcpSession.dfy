/** The session object of TcpSession.h: the same state machine as
    SessionModel, with its buffers and flags updated in place. `Model()` is the
    value a session object stands for; every method is tied to the
    corresponding handler of SessionModel. */
module TcpSessions {
  import opened Protocol
  import opened Frames
  import opened SessionModel
  import opened SessionRuns

  datatype ReadKind = OfHeader | OfPayload

  function Listed<T>(o: Option<T>): seq<T> {
    if o.Some? then [o.value] else []
  }

  class TcpSession {
    const headerBuf: array<Byte>        // header_buf_
    var currentHeader: Header           // current_header_
    var payloadBuf: array<Byte>         // payload_buf_
    var writeQueue: seq<Bytes>          // write_queue_
    var writing: bool                   // writing_
    var closed: bool                    // closed_
    var started: bool
    var key: string                     // the address captured by the callbacks
    // The operations the socket is working on.
    var outstanding: seq<ReadKind>      // async_read calls that have not been handled
    var filled: nat                     // bytes the current read has got so far
    var outgoing: seq<Write>            // async_write calls that have not been handled
    // History.
    ghost var stopped: Option<Read>
    ghost var refused: bool
    ghost var lost: Bytes
    ghost var sent: seq<Packet>
    ghost var wire: Bytes
    ghost var delivered: seq<Packet>
    ghost var reports: nat

    ghost predicate Shape()
      reads this
    {
      && headerBuf.Length == HEADER_SIZE
      && headerBuf != payloadBuf
      && |outstanding| <= 1
      && (outstanding != [] ==> filled <= Target().Length)
      && (outstanding == [OfPayload] ==> payloadBuf.Length == currentHeader.length)
    }

    function Target(): array<Byte>
      requires outstanding != []
      reads this
    {
      if outstanding[0] == OfHeader then headerBuf else payloadBuf
    }

    ghost function Reads(): seq<Read>
      reads this, headerBuf, payloadBuf
    {
      if outstanding == [] || filled > Target().Length then []
      else if outstanding[0] == OfHeader then [ReadHeader(headerBuf[..filled])]
      else [ReadPayload(payloadBuf[..filled])]
    }

    ghost function Model(): Session
      reads this, headerBuf, payloadBuf
    {
      Session(started, closed, currentHeader, Reads(), stopped, refused, writeQueue, writing, outgoing, lost,
              sent, wire, delivered, reports)
    }

    ghost predicate Valid()
      reads this, headerBuf, payloadBuf
    {
      Shape() && Inv(Model())
    }

    constructor ()
      ensures Valid() && Model() == Fresh()
      ensures fresh(headerBuf) && fresh(payloadBuf)
    {
      headerBuf := new Byte[HEADER_SIZE];
      payloadBuf := new Byte[0];
      currentHeader := Header(PROTOCOL_MAGIC, PING, 0);
      writeQueue, writing, closed, started, key := [], false, false, false, "";
      outstanding, filled, outgoing := [], 0, [];
      stopped, refused, lost, sent, wire, delivered, reports := None, false, [], [], [], [], 0;
      new;
      FreshInv();
    }

    /** The manager starts a session once. A second start would arm a second
        read, into the same buffer. */
    method Start(ip: string)
      requires Valid()
      modifies this`key, this`started, this`outstanding, this`filled
      ensures key == ip && started && outstanding == old(outstanding) + [OfHeader]
      ensures !old(started) ==> Valid() && Model() == Apply(old(Model()), SessionModel.Event.Start)
    {
      ghost var first := !started;
      if first {
        StepKeeps(Model(), SessionModel.Event.Start);
      }
      key, started := ip, true;
      DoReadHeader();
    }

    method DoReadHeader()
      modifies this`outstanding, this`filled
      ensures outstanding == old(outstanding) + [OfHeader]
      ensures old(Shape()) && old(outstanding) == [] ==> Shape() && Model() == SessionModel.DoReadHeader(old(Model()))
    {
      filled := if outstanding == [] then 0 else filled;
      outstanding := outstanding + [OfHeader];
    }

    method DoReadPayload()
      requires Shape() && outstanding == [] && payloadBuf.Length == currentHeader.length
      modifies this`outstanding, this`filled
      ensures Shape() && Model() == SessionModel.DoReadPayload(old(Model()))
    {
      outstanding, filled := outstanding + [OfPayload], 0;
    }

    /** The socket puts some bytes into the buffer of the outstanding read. */
    method PlaceBytes(bytes: Bytes)
      requires Valid() && Enabled(Model(), BytesPlaced(0, bytes))
      modifies this`filled, headerBuf, payloadBuf
      ensures Valid() && Model() == Place(old(Model()), 0, bytes)
    {
      hide Inv;
      StepKeeps(Model(), BytesPlaced(0, bytes));
      var buf := Target();
      ghost var was := buf[..filled];
      forall j | 0 <= j < |bytes| {
        buf[filled + j] := bytes[j];
      }
      filled := filled + |bytes|;
      assert buf[..filled] == was + bytes;
      assert Reads() == old(Reads())[0 := old(Reads())[0].(got := was + bytes)];
    }

    /** Completion handler of the header read. */
    method OnHeaderRead() returns (packet: Option<Packet>, reported: bool)
      requires Valid() && outstanding == [OfHeader] && filled == HEADER_SIZE
      modifies this`currentHeader, this`payloadBuf, this`outstanding, this`filled, this`delivered
      modifies this`stopped, this`refused, this`closed, this`reports
      ensures Valid() && Model() == HandleRead(old(Model()), 0)
      ensures delivered == old(delivered) + Listed(packet)
      ensures if reported then !old(closed) && closed else closed == old(closed)
      ensures reports == old(reports) + (if reported then 1 else 0)
      ensures payloadBuf == old(payloadBuf) || fresh(payloadBuf)
    {
      hide Inv, DeserializeHeader, HandleRead;
      packet, reported := None, false;
      ghost var m, got := Model(), headerBuf[..filled];
      assert got == headerBuf[..] && m.pendingReads == [ReadHeader(got)];
      HandleHeaderRead(m, got);
      HandleReadKeeps(m, 0);
      outstanding := [];
      assert Model() == m.(pendingReads := []);
      var hdr := DeserializeHeader(headerBuf[..]);
      if hdr.None? {
        reported := RefuseHeader(ReadHeader(got));
      } else {
        packet := AcceptHeader(hdr.value);
      }
    }

    /** The bad-header branch: the session ends with an error. */
    method RefuseHeader(ghost r: Read) returns (reported: bool)
      requires Shape()
      modifies this`stopped, this`refused, this`closed, this`reports
      ensures Shape() && Model() == SessionModel.HandleError(old(Model()).(stopped := Some(r), refused := true))
      ensures closed && (reported <==> !old(closed))
      ensures reports == old(reports) + (if reported then 1 else 0)
    {
      stopped, refused := Some(r), true;
      reported := this.HandleError();
    }

    /** An empty packet is delivered at once; otherwise the payload is read. */
    method AcceptHeader(hdr: Header) returns (packet: Option<Packet>)
      requires Shape() && outstanding == []
      modifies this`currentHeader, this`payloadBuf, this`outstanding, this`filled, this`delivered
      ensures Shape()
      ensures var s := old(Model()).(header := hdr);
        if hdr.length == 0 then
          packet == Some(Packet(hdr, [])) && Model() == SessionModel.DoReadHeader(Deliver(s, packet.value))
        else
          packet == None && Model() == SessionModel.DoReadPayload(s)
      ensures payloadBuf == old(payloadBuf) || fresh(payloadBuf)
    {
      packet := None;
      currentHeader := hdr;
      if currentHeader.length == 0 {
        packet := Some(Packet(currentHeader, []));
        delivered := delivered + [packet.value];
        DoReadHeader();
      } else {
        payloadBuf := new Byte[currentHeader.length];
        DoReadPayload();
      }
    }

    /** Completion handler of the payload read. */
    method OnPayloadRead() returns (packet: Packet)
      requires Valid() && outstanding == [OfPayload] && filled == currentHeader.length
      modifies this`payloadBuf, this`outstanding, this`filled, this`delivered
      ensures Valid() && Model() == HandleRead(old(Model()), 0)
      ensures delivered == old(delivered) + [packet]
      ensures fresh(payloadBuf)
    {
      hide Inv, HandleRead;
      ghost var m := Model();
      assert payloadBuf[..filled] == payloadBuf[..];
      HandlePayloadRead(m, payloadBuf[..]);
      HandleReadKeeps(m, 0);
      packet := Packet(currentHeader, payloadBuf[..]);
      payloadBuf := new Byte[0];
      outstanding := [];
      assert Model() == m.(pendingReads := []);
      delivered := delivered + [packet];
      DoReadHeader();
    }

    /** Runs the completion handler of the outstanding read. The packet goes to
        on_packet_; `reported` says that on_close_ has to be called. */
    method OnReadDone() returns (packet: Option<Packet>, reported: bool)
      requires Valid() && Enabled(Model(), ReadDone(0))
      modifies this`currentHeader, this`payloadBuf, this`outstanding, this`filled, this`delivered
      modifies this`stopped, this`refused, this`closed, this`reports
      ensures Valid() && Model() == HandleRead(old(Model()), 0)
      ensures Listed(packet) == AboutToDeliver(old(Model()))
      ensures if reported then !old(closed) && closed else closed == old(closed)
      ensures reports == old(reports) + (if reported then 1 else 0)
      ensures payloadBuf == old(payloadBuf) || fresh(payloadBuf)
    {
      hide Inv, HandleRead, AboutToDeliver;
      ghost var m := Model();
      InvParts(m);
      ReadDoneMovesNoByte(m, 0);
      if outstanding[0] == OfHeader {
        packet, reported := OnHeaderRead();
      } else {
        var p := OnPayloadRead();
        packet, reported := Some(p), false;
      }
      Cancel(m.delivered, Listed(packet), AboutToDeliver(m));
    }

    /** Completion handler of a failed read. */
    method OnReadError() returns (reported: bool)
      requires Valid() && outstanding != [] && filled < Target().Length
      modifies this`outstanding, this`stopped, this`closed, this`reports
      ensures Valid() && Model() == HandleReadError(old(Model()), 0)
      ensures closed && (reported <==> !old(closed))
      ensures reports == old(reports) + (if reported then 1 else 0)
    {
      hide Inv;
      HandleReadErrorKeeps(Model(), 0);
      stopped := Some(Reads()[0]);
      outstanding := [];
      reported := this.HandleError();
    }

    method Send(packet: Packet)
      requires Valid()
      modifies this`writeQueue, this`writing, this`outgoing, this`sent
      ensures Valid() && Model() == SessionModel.Send(old(Model()), packet)
      ensures sent == old(sent) + [packet]
    {
      hide Inv, Encode;
      SendKeeps(Model(), packet);
      var data := Serialize(packet);
      writeQueue := writeQueue + [data[..]];
      sent := sent + [packet];
      if !writing {
        writing := true;
        DoWrite();
      }
    }

    method DoWrite()
      requires Shape()
      modifies this`writeQueue, this`writing, this`outgoing
      ensures Shape() && Model() == SessionModel.DoWrite(old(Model()))
    {
      if writeQueue == [] {
        writing := false;
        return;
      }
      var buf := writeQueue[0];
      writeQueue := writeQueue[1..];
      outgoing := outgoing + [Write(buf, 0)];
    }

    /** The socket takes some bytes of the outstanding write. */
    method TakeBytes(k: nat)
      requires Valid() && Enabled(Model(), BytesTaken(0, k))
      modifies this`outgoing, this`wire
      ensures Valid() && Model() == Take(old(Model()), 0, k)
    {
      hide Inv;
      TakeKeeps(Model(), 0, k);
      var w := outgoing[0];
      wire := wire + w.buf[w.done..w.done + k];
      outgoing := outgoing[0 := w.(done := w.done + k)];
    }

    /** Completion handler of a write. */
    method OnWriteDone()
      requires Valid() && Enabled(Model(), WriteDone(0))
      modifies this`writeQueue, this`writing, this`outgoing
      ensures Valid() && Model() == HandleWrite(old(Model()), 0)
    {
      hide Inv;
      HandleWriteKeeps(Model(), 0);
      outgoing := Remove(outgoing, 0);
      DoWrite();
    }

    /** Completion handler of a failed write. */
    method OnWriteError() returns (reported: bool)
      requires Valid() && Enabled(Model(), WriteFailed(0))
      modifies this`outgoing, this`lost, this`closed, this`reports
      ensures Valid() && Model() == HandleWriteError(old(Model()), 0)
      ensures closed && (reported <==> !old(closed))
      ensures reports == old(reports) + (if reported then 1 else 0)
    {
      hide Inv;
      HandleWriteErrorKeeps(Model(), 0);
      lost := outgoing[0].buf[outgoing[0].done..];
      outgoing := Remove(outgoing, 0);
      reported := this.HandleError();
    }

    method Close()
      modifies this`closed
      ensures closed
      ensures old(Valid()) ==> Valid() && Model() == CloseSession(old(Model()))
    {
      ghost var valid := Valid();
      if valid {
        StepKeeps(Model(), SessionModel.Event.Close);
      }
      if closed {
        return;
      }
      closed := true;
    }

    predicate IsOpen()
      reads this
    {
      !closed
    }

    /** Closes the session; `reported` says that on_close_ has to be called. */
    method HandleError() returns (reported: bool)
      modifies this`closed, this`reports
      ensures closed && (reported <==> !old(closed))
      ensures reports == if reported then old(reports) + 1 else old(reports)
      ensures old(Shape()) ==> Shape() && Model() == SessionModel.HandleError(old(Model()))
    {
      if closed {
        return false;
      }
      closed := true;
      reports := reports + 1;
      return true;
    }
  }
}
