/** The manager object of NetworkManager.h, over live session objects. The
    session table as a value is `Model()`; what every registered session is
    doing is `States()`. Each handler is tied to both. */
module NetworkManagers {
  import opened Protocol
  import opened SessionModel
  import opened SessionRuns
  import opened TcpSessions
  import opened SessionTable
  import opened ReplyPolicy

  type Sessions = map<TcpSession, Session>

  /** Calls of the client's callbacks. */
  datatype ClientCall = PeerConnected(ip: Key) | LostPeer(ip: Key) | Message(ip: Key, packet: Packet)

  /** The session mapped at the address, if any, is closed. */
  ghost function Replaced(states: Sessions, mapped: map<Key, TcpSession>, ip: Key): Sessions
    requires mapped.Values <= states.Keys
  {
    if ip !in mapped then states else
    assert mapped[ip] in mapped.Values;
    states[mapped[ip] := CloseSession(states[mapped[ip]])]
  }

  /** A session that has just been registered: it reads, and the client's
      handshake, if a client is there to send it, is on its way. */
  ghost function Greeted(hello: Option<Bytes>): Session {
    var s := SessionModel.Apply(Fresh(), Start);
    match hello
    case None => s
    case Some(text) => SessionModel.Send(s, MakePacket(HANDSHAKE, text))
  }

  /** Every session of a set gets the packet once. */
  ghost function SentTo(states: Sessions, done: set<TcpSession>, p: Packet): Sessions {
    map s | s in states :: if s in done then SessionModel.Send(states[s], p) else states[s]
  }

  lemma SentToNobody(states: Sessions, p: Packet)
    ensures SentTo(states, {}, p) == states
  {
    hide SessionModel.Send;
  }

  lemma SentToOneMore(states: Sessions, done: set<TcpSession>, session: TcpSession, p: Packet)
    requires session in states && session !in done
    ensures SentTo(states, done, p)[session := SessionModel.Send(SentTo(states, done, p)[session], p)] ==
      SentTo(states, done + {session}, p)
  {
    hide SessionModel.Send;
  }

  lemma FreshHasSentNothing(session: TcpSession)
    requires session.Model() == Fresh()
    ensures session.sent == []
  {
  }

  lemma IsFresh(session: TcpSession)
    requires session.Model() == Fresh()
    ensures session.IsOpen() && session.reports == 0 && !session.started
  {
  }

  class NetworkManager {
    var sessions: map<Key, TcpSession>      // sessions_
    var pending: multiset<Key>              // connects that have not completed
    ghost var registered: set<TcpSession>
    ghost var tally: Tally
    ghost var calls: seq<ClientCall>        // on_peer_connected_, on_peer_lost_, on_message_

    ghost function Buffers(): set<object>
      reads this`registered, registered`payloadBuf
    {
      (set s: TcpSession | s in registered :: s.headerBuf) + (set s: TcpSession | s in registered :: s.payloadBuf)
    }

    ghost function Model(): Table<TcpSession>
      reads this, registered
    {
      Table(sessions, map s | s in registered :: Info(s.key, !s.closed, s.reports), pending, tally)
    }

    ghost function MappedAt(ip: Key): set<TcpSession>
      reads this
    {
      if ip in sessions then {sessions[ip]} else {}
    }

    ghost function States(): Sessions
      reads this`registered, registered, Buffers()
    {
      map s | s in registered :: s.Model()
    }

    /** No two sessions share a buffer. */
    ghost predicate Separate()
      reads this`registered, registered`payloadBuf
    {
      forall r, s :: r in registered && s in registered && r != s ==>
        r.headerBuf != s.headerBuf && r.headerBuf != s.payloadBuf && r.payloadBuf != s.payloadBuf
    }

    ghost predicate SessionsValid()
      reads this`registered, registered, Buffers()
    {
      Separate() && forall s <- registered :: s.Valid() && s.started
    }

    ghost predicate Valid()
      reads this, registered, Buffers()
    {
      SessionTable.Inv(Model()) && SessionsValid()
    }

    /** A session nothing has been sent or read on, with buffers of its own. */
    ghost predicate IsNew(session: TcpSession)
      reads this`registered, registered`payloadBuf, session, session.headerBuf, session.payloadBuf
    {
      && session.Valid() && session.Model() == Fresh() && session !in registered
      && session.headerBuf !in Buffers() && session.payloadBuf !in Buffers()
    }

    lemma MappedAreRegistered()
      requires Valid()
      ensures sessions.Values <= registered
      ensures forall ip <- sessions :: sessions[ip] in registered && sessions[ip].IsOpen() && sessions[ip].key == ip
    {
    }

    constructor ()
      ensures Model() == Empty() && calls == []
      ensures Valid()
    {
      sessions, pending, registered, tally := map[], multiset{}, {}, Tally(0, 0, 0, 0, 0, 0);
      calls := [];
      new;
      assert Model() == Empty();
      EmptyInv<TcpSession>();
    }

    /** Closes one session of the table; its callback stays silent. */
    method CloseSilently(session: TcpSession)
      requires SessionsValid() && session in registered
      modifies session`closed
      ensures SessionsValid() && Model() == old(Model()).(info := Closed(old(Model()).info, {session}))
      ensures States() == old(States())[session := CloseSession(old(session.Model()))] && !session.IsOpen()
    {
      hide SessionModel.Inv, TcpSession.Valid, TcpSession.Model, Separate;
      session.Close();
    }

    /** Starts reading from a new session with callbacks for its address. */
    method Adopt(ip: Key, session: TcpSession)
      requires SessionsValid() && IsNew(session)
      modifies this`registered, session
      ensures SessionsValid() && registered == old(registered) + {session}
      ensures Model() == old(Model()).(info := old(Model()).info[session := Info(ip, true, 0)])
      ensures States() == old(States())[session := Greeted(None)] && session.sent == old(session.sent)
    {
      hide SessionsValid, TcpSession.Valid, TcpSession.Model, Greeted, IsNew, States, Buffers;
      StartNew(ip, session);
      Include(session);
    }

    method StartNew(ip: Key, session: TcpSession)
      requires SessionsValid() && IsNew(session)
      modifies session
      ensures SessionsValid() && Model() == old(Model()) && States() == old(States())
      ensures session.Valid() && session.started && session.IsOpen() && session.key == ip && session.reports == 0
      ensures session !in registered
      ensures session.headerBuf !in Buffers() && session.payloadBuf !in Buffers()
      ensures session.Model() == Greeted(None) && session.sent == old(session.sent)
    {
      hide SessionModel.Inv, TcpSession.Valid, TcpSession.Model, Fresh, Separate;
      IsFresh(session);
      session.Start(ip);
    }

    ghost method Include(session: TcpSession)
      requires SessionsValid() && session.Valid() && session.started && session !in registered
      requires session.headerBuf !in Buffers() && session.payloadBuf !in Buffers()
      modifies this`registered
      ensures SessionsValid() && registered == old(registered) + {session}
      ensures var info := Info(session.key, session.IsOpen(), session.reports);
        Model() == old(Model()).(info := old(Model()).info[session := info])
      ensures States() == old(States())[session := session.Model()]
    {
      hide TcpSession.Valid, TcpSession.Model;
      registered := registered + {session};
    }

    method SetEntry(ip: Key, session: TcpSession)
      requires SessionsValid()
      modifies this`sessions
      ensures SessionsValid() && States() == old(States())
      ensures Model() == old(Model()).(mapped := old(sessions)[ip := session])
    {
      hide TcpSession.Valid, TcpSession.Model, Separate;
      sessions := sessions[ip := session];
    }

    method Erase(ip: Key)
      requires SessionsValid()
      modifies this`sessions
      ensures SessionsValid() && Model() == old(Model()).(mapped := old(sessions) - {ip})
    {
      hide TcpSession.Valid, TcpSession.Model, Separate;
      sessions := sessions - {ip};
    }

    method Clear()
      requires SessionsValid()
      modifies this`sessions
      ensures SessionsValid() && Model() == old(Model()).(mapped := map[])
    {
      hide TcpSession.Valid, TcpSession.Model, Separate;
      sessions := map[];
    }

    ghost method Count(after: Tally)
      requires SessionsValid()
      modifies this`tally
      ensures SessionsValid() && Model() == old(Model()).(tally := after) && States() == old(States())
    {
      hide TcpSession.Valid, TcpSession.Model, Separate;
      tally := after;
    }

    ghost method Tell(call: ClientCall)
      requires SessionsValid()
      modifies this`calls
      ensures SessionsValid() && Model() == old(Model()) && States() == old(States())
      ensures calls == old(calls) + [call]
    {
      hide TcpSession.Valid, TcpSession.Model, Separate;
      calls := calls + [call];
    }

    /** A session already mapped at the address is closed, then overwritten. */
    method Remap(ip: Key, session: TcpSession)
      requires Valid()
      modifies this`sessions, this`tally, MappedAt(ip)`closed
      ensures SessionsValid() && Model() == Overwrite(old(Model()), ip, session)
      ensures ip in old(sessions) ==> !old(sessions)[ip].IsOpen()
      ensures old(sessions).Values <= old(States()).Keys && States() == Replaced(old(States()), old(sessions), ip)
    {
      hide SessionTable.Inv, SessionsValid, TcpSession.Model, Closed;
      MappedAreRegistered();
      if ip in sessions {
        CloseSilently(sessions[ip]);
        Count(tally.(replaced := tally.replaced + 1));
      }
      SetEntry(ip, session);
    }

    /** Registers a session and calls the client back, which greets the peer.
        Without a client, `hello` is None. */
    method RegisterSession(ip: Key, session: TcpSession, hello: Option<Bytes>)
      requires Valid() && IsNew(session)
      modifies this`sessions, this`tally, this`registered, this`calls, session, MappedAt(ip)`closed
      ensures ip in sessions && sessions[ip] == session && session.IsOpen() && session.key == ip
      ensures session.sent == if hello.Some? then [MakePacket(HANDSHAKE, hello.value)] else []
      ensures ip in old(sessions) ==> !old(sessions)[ip].IsOpen()
      ensures calls == old(calls) + if hello.Some? then [PeerConnected(ip)] else []
      ensures Model() == Register(old(Model()), ip, session)
      ensures Valid()
      ensures registered == old(registered) + {session}
      ensures old(sessions).Values <= old(States()).Keys
      ensures States() == Replaced(old(States()), old(sessions), ip)[session := Greeted(hello)]
    {
      hide SessionTable.Inv, SessionsValid, TcpSession.Model, States, Register, Replaced;
      MappedAreRegistered();
      Enter(ip, session);
      MappedAreRegistered();
      if hello.Some? {
        OnPeerConnected(ip, hello.value);
        assert [] + [MakePacket(HANDSHAKE, hello.value)] == [MakePacket(HANDSHAKE, hello.value)];
      }
    }

    /** The table entry is set and the session starts reading. */
    method Enter(ip: Key, session: TcpSession)
      requires Valid() && IsNew(session)
      modifies this`sessions, this`tally, this`registered, session, MappedAt(ip)`closed
      ensures Model() == Register(old(Model()), ip, session)
      ensures Valid() && ip in sessions && sessions[ip] == session && session.sent == []
      ensures ip in old(sessions) ==> !old(sessions)[ip].IsOpen()
      ensures registered == old(registered) + {session}
      ensures old(sessions).Values <= old(States()).Keys
      ensures States() == Replaced(old(States()), old(sessions), ip)[session := Greeted(None)]
    {
      hide SessionTable.Inv, TcpSession.Valid, TcpSession.Model, Fresh, Overwrite, Replaced, Greeted, Separate;
      RegisterKeeps(Model(), ip, session);
      RegisterParts(Model(), ip, session, pending);
      MappedAreRegistered();
      assert session.sent == [] by { FreshHasSentNothing(session); }
      Remap(ip, session);
      Adopt(ip, session);
    }

    /** The client's callback for a new connection. */
    method OnPeerConnected(ip: Key, hello: Bytes)
      requires Valid()
      modifies this`calls
      modifies MappedAt(ip)`writeQueue, MappedAt(ip)`writing, MappedAt(ip)`outgoing, MappedAt(ip)`sent
      ensures calls == old(calls) + [PeerConnected(ip)]
      ensures ip in sessions ==> sessions[ip].sent == old(sessions[ip].sent) + [MakePacket(HANDSHAKE, hello)]
      ensures Model() == old(Model())
      ensures Valid()
      ensures sessions.Values <= registered
      ensures States() == SendVia(old(States()), sessions, ip, MakePacket(HANDSHAKE, hello))
    {
      hide SessionTable.Inv, SessionsValid, SendVia, States;
      Tell(PeerConnected(ip));
      SendTo(ip, MakePacket(HANDSHAKE, hello));
    }

    /** The outcome of an accept: the session is registered under its peer's address. */
    method OnIncomingSession(address: Key, session: TcpSession, hello: Option<Bytes>)
      requires Valid() && IsNew(session)
      modifies this`sessions, this`tally, this`registered, this`calls, session, MappedAt(address)`closed
      ensures address in sessions && sessions[address] == session && session.IsOpen() && session.key == address
      ensures session.sent == if hello.Some? then [MakePacket(HANDSHAKE, hello.value)] else []
      ensures calls == old(calls) + if hello.Some? then [PeerConnected(address)] else []
      ensures Model() == SessionTable.Apply(old(Model()), Accepted(address, session))
      ensures Valid()
      ensures old(sessions).Values <= old(States()).Keys
      ensures States() == Replaced(old(States()), old(sessions), address)[session := Greeted(hello)]
    {
      hide SessionTable.Inv, SessionsValid, Register, Replaced, Greeted, States;
      RegisterSession(address, session, hello);
    }

    method ConnectTo(ip: Key) returns (dialled: bool)
      requires Valid()
      modifies this`pending
      ensures Model() == BeginConnect(old(Model()), ip)
      ensures Valid()
      ensures dialled <==> ip !in sessions
      ensures pending == old(pending) + if ip in sessions then multiset{} else multiset{ip}
    {
      hide SessionTable.Inv, TcpSession.Valid, TcpSession.Model;
      PendingIsIrrelevant(Model(), BeginConnect(Model(), ip));
      if ip in sessions {
        return false;
      }
      pending := pending + multiset{ip};
      return true;
    }

    /** The client's reaction to a beacon: dial unless connected. The guard of
        connect_to behind it never has anything left to refuse. */
    method OnPeerFound(ip: Key) returns (dialled: bool)
      requires Valid()
      modifies this`pending
      ensures Model() == BeginConnect(old(Model()), ip)
      ensures Valid()
      ensures dialled <==> ip !in sessions
      ensures pending == old(pending) + if ip in sessions then multiset{} else multiset{ip}
    {
      hide SessionTable.Inv, TcpSession.Valid, TcpSession.Model;
      dialled := false;
      var connected := IsConnected(ip);
      if !connected {
        dialled := ConnectTo(ip);
      }
    }

    method OnConnected(ip: Key, session: TcpSession, hello: Option<Bytes>)
      requires Valid() && IsNew(session) && ip in pending
      modifies this, session, MappedAt(ip)`closed
      ensures ip in sessions && sessions[ip] == session && session.IsOpen() && session.key == ip
      ensures session.sent == if hello.Some? then [MakePacket(HANDSHAKE, hello.value)] else []
      ensures pending == old(pending) - multiset{ip}
      ensures calls == old(calls) + if hello.Some? then [PeerConnected(ip)] else []
      ensures Model() == SessionTable.Apply(old(Model()), Connected(ip, session))
      ensures Valid()
      ensures old(sessions).Values <= old(States()).Keys
      ensures States() == Replaced(old(States()), old(sessions), ip)[session := Greeted(hello)]
    {
      hide SessionTable.Inv, SessionsValid, TcpSession.Model, Register, Replaced, Greeted, States;
      RegisterParts(Model(), ip, session, pending - multiset{ip});
      RegisterSession(ip, session, hello);
      SettleConnect(ip);
    }

    /** A pending connect has come to its end. */
    method SettleConnect(ip: Key)
      requires Valid() && ip in pending
      modifies this`pending
      ensures Model() == old(Model()).(pending := old(pending) - multiset{ip})
      ensures Valid() && States() == old(States())
    {
      hide SessionTable.Inv, TcpSession.Valid, TcpSession.Model, Separate;
      PendingIsIrrelevant(Model(), Model().(pending := pending - multiset{ip}));
      pending := pending - multiset{ip};
    }

    method OnConnectFailed(ip: Key)
      requires Valid() && ip in pending
      modifies this`pending
      ensures Model() == SessionTable.Apply(old(Model()), ConnectFailed(ip))
      ensures pending == old(pending) - multiset{ip}
      ensures Valid()
    {
      SettleConnect(ip);
    }

    method IsConnected(ip: Key) returns (connected: bool)
      requires Valid()
      ensures connected <==> ip in sessions
    {
      MappedAreRegistered();
      connected := ip in sessions && sessions[ip].IsOpen();
    }

    /** An open session takes the packet; no other session changes. */
    method SendIfOpen(session: TcpSession, packet: Packet)
      requires SessionsValid() && session in registered
      modifies session`writeQueue, session`writing, session`outgoing, session`sent
      ensures SessionsValid() && Model() == old(Model())
      ensures States() ==
        if session.IsOpen() then old(States())[session := SessionModel.Send(old(session.Model()), packet)]
        else old(States())
      ensures session.sent == old(session.sent) + if session.IsOpen() then [packet] else []
    {
      hide SessionModel.Inv, TcpSession.Valid, SessionModel.Send, TcpSession.Model, Separate;
      if session.IsOpen() {
        session.Send(packet);
      }
    }

    /** A packet goes to the mapped session, and to no other. */
    method SendTo(ip: Key, packet: Packet)
      requires Valid()
      modifies MappedAt(ip)`writeQueue, MappedAt(ip)`writing, MappedAt(ip)`outgoing, MappedAt(ip)`sent
      ensures Model() == old(Model())
      ensures Valid()
      ensures sessions.Values <= registered && States() == SendVia(old(States()), sessions, ip, packet)
      ensures ip in sessions ==> sessions[ip].sent == old(sessions[ip].sent) + [packet]
    {
      hide SessionTable.Inv, SessionsValid, SessionModel.Send, TcpSession.Model;
      MappedAreRegistered();
      if ip in sessions {
        SendIfOpen(sessions[ip], packet);
      }
    }

    /** Every mapped session gets the packet once; no other session changes. */
    method Broadcast(packet: Packet)
      requires Valid()
      modifies sessions.Values`writeQueue, sessions.Values`writing, sessions.Values`outgoing, sessions.Values`sent
      ensures Model() == old(Model())
      ensures Valid()
      ensures States() == SentTo(old(States()), sessions.Values, packet)
      ensures forall ip <- sessions :: sessions[ip].sent == old(sessions[ip].sent) + [packet]
    {
      hide SessionTable.Inv, SessionsValid, SessionModel.Send, SentTo, TcpSession.Model;
      MappedAreRegistered();
      ghost var was := States();
      SentToNobody(was, packet);
      var todo := sessions.Keys;
      ghost var done: set<TcpSession> := {};
      while todo != {}
        invariant todo <= sessions.Keys && done <= sessions.Values
        invariant forall ip <- sessions :: ip in todo <==> sessions[ip] !in done
        invariant SessionsValid() && Model() == old(Model()) && States() == SentTo(was, done, packet)
        invariant forall ip <- sessions ::
          sessions[ip].sent == old(sessions[ip].sent) + if sessions[ip] in done then [packet] else []
      {
        var ip :| ip in todo;
        MappedAreRegistered();
        SentToOneMore(was, done, sessions[ip], packet);
        SendIfOpen(sessions[ip], packet);
        todo, done := todo - {ip}, done + {sessions[ip]};
      }
      assert done == sessions.Values;
    }

    /** Discovery has lost a peer: its session, if any, is closed and forgotten. */
    method OnPeerLost(ip: Key)
      requires Valid()
      modifies this`sessions, this`tally, this`calls, MappedAt(ip)`closed
      ensures Model() == Evict(old(Model()), ip)
      ensures ip !in sessions && (ip in old(sessions) ==> !old(sessions)[ip].IsOpen())
      ensures calls == old(calls) + [LostPeer(ip)]
      ensures Valid()
    {
      hide SessionTable.Inv, SessionsValid, TcpSession.Model, Closed;
      EvictKeeps(Model(), ip);
      MappedAreRegistered();
      ghost var was := Model();
      if ip in sessions {
        CloseSilently(sessions[ip]);
        Erase(ip);
      }
      Count(Evict(was, ip).tally);
      Tell(LostPeer(ip));
    }

    /** The loop of stop: every mapped session is closed. */
    method CloseAll()
      requires SessionsValid() && sessions.Values <= registered
      modifies sessions.Values`closed
      ensures SessionsValid() && Model() == old(Model()).(info := Closed(old(Model()).info, sessions.Values))
      ensures forall ip <- sessions :: !sessions[ip].IsOpen()
    {
      hide SessionsValid, TcpSession.Model, Closed;
      ghost var was := Model();
      NoneClosed(was.info);
      var todo := sessions.Keys;
      ghost var done: set<TcpSession> := {};
      while todo != {}
        invariant todo <= sessions.Keys && done <= sessions.Values
        invariant forall ip <- sessions :: ip in todo || sessions[ip] in done
        invariant SessionsValid() && Model() == was.(info := Closed(was.info, done))
        invariant forall s <- done :: !s.IsOpen()
      {
        var ip :| ip in todo;
        assert sessions[ip] in sessions.Values;
        ClosedTwice(was.info, done, {sessions[ip]});
        CloseSilently(sessions[ip]);
        todo, done := todo - {ip}, done + {sessions[ip]};
      }
      assert done == sessions.Values;
    }

    method Stop()
      requires Valid()
      modifies this`sessions, this`tally, sessions.Values`closed
      ensures Model() == StopAll(old(Model()))
      ensures Valid()
      ensures sessions == map[] && forall ip <- old(sessions) :: !old(sessions)[ip].IsOpen()
    {
      hide SessionTable.Inv, SessionsValid, TcpSession.Model, Closed;
      StopKeeps(Model());
      MappedAreRegistered();
      Count(tally.(stopped := tally.stopped + |sessions|));
      CloseAll();
      Clear();
    }

    /** Erases by address, without looking at which session is mapped there. */
    method OnSessionClosed(ip: Key)
      modifies this`sessions, this`tally, this`calls
      ensures calls == old(calls) + [LostPeer(ip)]
      ensures sessions == old(sessions) - {ip}
      ensures tally == old(tally).(failed := old(tally).failed + 1, lostCalls := old(tally).lostCalls + 1)
    {
      sessions := sessions - {ip};
      tally := tally.(failed := tally.failed + 1, lostCalls := tally.lostCalls + 1);
      calls := calls + [LostPeer(ip)];
    }

    /** Pings are answered here, text messages by the client's callback. */
    method OnSessionPacket(ip: Key, packet: Packet)
      requires Valid()
      modifies this`calls
      modifies MappedAt(ip)`writeQueue, MappedAt(ip)`writing, MappedAt(ip)`outgoing, MappedAt(ip)`sent
      ensures Model() == old(Model())
      ensures Valid()
      ensures sessions.Values <= registered
      ensures States() ==
        match Reply(packet)
        case None => old(States())
        case Some(r) => SendVia(old(States()), sessions, ip, r)
      ensures ip in sessions ==>
        sessions[ip].sent == old(sessions[ip].sent) +
          if packet.header.kind == PING then [MakePacket(PONG, [])]
          else if packet.header.kind == MSG_TEXT then [MakePacket(MSG_RECEIPT, DELIVERED)] else []
      ensures calls == old(calls) + if packet.header.kind == PING then [] else [Message(ip, packet)]
    {
      hide SessionTable.Inv, SessionsValid, SendVia;
      MappedAreRegistered();
      if packet.header.kind == PING {
        SendTo(ip, MakePong());
        return;
      }
      OnMessage(ip, packet);
    }

    method OnMessage(ip: Key, packet: Packet)
      requires Valid()
      modifies this`calls
      modifies MappedAt(ip)`writeQueue, MappedAt(ip)`writing, MappedAt(ip)`outgoing, MappedAt(ip)`sent
      ensures Model() == old(Model())
      ensures Valid()
      ensures sessions.Values <= registered
      ensures States() ==
        if packet.header.kind == MSG_TEXT then SendVia(old(States()), sessions, ip, MakePacket(MSG_RECEIPT, DELIVERED))
        else old(States())
      ensures ip in sessions ==>
        sessions[ip].sent == old(sessions[ip].sent) +
          if packet.header.kind == MSG_TEXT then [MakePacket(MSG_RECEIPT, DELIVERED)] else []
      ensures calls == old(calls) + [Message(ip, packet)]
    {
      hide SessionTable.Inv, SessionsValid, SendVia, States;
      MappedAreRegistered();
      Tell(Message(ip, packet));
      if packet.header.kind == MSG_TEXT {
        SendTo(ip, MakePacket(MSG_RECEIPT, DELIVERED));
      }
    }

    // ----- completion handlers, with the callbacks wired by RegisterSession ---

    /** A session's entry after its handler has run. */
    ghost function After(t: Table<TcpSession>, session: TcpSession, reported: bool): map<TcpSession, Info>
      requires session in t.info
    {
      var i := t.info[session];
      t.info[session := if reported then i.(open := false, reports := i.reports + 1) else i]
    }

    /** A session that drops its payload buffer for a new one still shares none. */
    twostate lemma StaysSeparate(session: TcpSession)
      requires old(Separate()) && registered == old(registered)
      requires forall s <- registered :: s != session ==> s.payloadBuf == old(s.payloadBuf)
      requires session.payloadBuf == old(session.payloadBuf) || fresh(session.payloadBuf)
      ensures Separate()
    {
    }

    /** The session's own step, seen among all sessions. */
    method StepReader(session: TcpSession) returns (packet: Option<Packet>, reported: bool)
      requires SessionsValid() && session in registered && SessionModel.Enabled(session.Model(), ReadDone(0))
      modifies session
      ensures SessionsValid() && session.key == old(session.key)
      ensures if reported then old(session.IsOpen()) && !session.IsOpen() else session.IsOpen() == old(session.IsOpen())
      ensures session.reports == old(session.reports) + (if reported then 1 else 0)
      ensures States() == old(States())[session := HandleRead(old(session.Model()), 0)]
      ensures Listed(packet) == AboutToDeliver(old(session.Model())) && session.sent == old(session.sent)
    {
      hide SessionModel.Enabled, HandleRead, AboutToDeliver, TcpSession.Valid, TcpSession.Model, Separate, Buffers;
      packet, reported := session.OnReadDone();
      StaysSeparate(session);
    }

    method RunReadHandler(session: TcpSession) returns (packet: Option<Packet>, reported: bool)
      requires SessionsValid() && session in registered && SessionModel.Enabled(session.Model(), ReadDone(0))
      modifies session
      ensures SessionsValid() && session.key == old(session.key)
      ensures Model() == old(Model()).(info := After(old(Model()), session, reported))
      ensures States() == old(States())[session := HandleRead(old(session.Model()), 0)]
      ensures if reported then old(session.IsOpen()) && !session.IsOpen() else session.IsOpen() == old(session.IsOpen())
      ensures Listed(packet) == AboutToDeliver(old(session.Model())) && session.sent == old(session.sent)
    {
      hide SessionModel.Enabled, HandleRead, AboutToDeliver, TcpSession.Model, SessionsValid, States;
      packet, reported := StepReader(session);
    }

    /** The failure callback: the failed session, already closed, leaves the table. */
    method ForgetFailed(session: TcpSession, ghost was: Table<TcpSession>)
      requires SessionTable.Inv(was) && SessionsValid() && session in registered && session in was.info
      requires was.info[session].open && session.key == was.info[session].key
      requires Model() == was.(info := After(was, session, true))
      modifies this`sessions, this`tally, this`calls
      ensures Model() == Fail(was, session)
      ensures Valid() && States() == old(States())
      ensures calls == old(calls) + [LostPeer(session.key)]
    {
      hide SessionTable.Inv, TcpSession.Valid, TcpSession.Model, Separate;
      FailKeeps(was, session);
      OnSessionClosed(session.key);
    }

    /** The session's own handler and, if it failed, the close callback. */
    method FinishRead(session: TcpSession) returns (packet: Option<Packet>)
      requires Valid() && session in registered && SessionModel.Enabled(session.Model(), ReadDone(0))
      modifies this`sessions, this`tally, this`calls, session
      ensures Model() ==
        if old(session.IsOpen()) && !session.IsOpen() then Fail(old(Model()), session) else old(Model())
      ensures Valid() && session.key == old(session.key) && session.sent == old(session.sent)
      ensures calls == old(calls) + if old(session.IsOpen()) && !session.IsOpen() then [LostPeer(session.key)] else []
      ensures sessions == old(sessions) || sessions == old(sessions) - {session.key}
      ensures States() == old(States())[session := HandleRead(old(session.Model()), 0)]
      ensures Listed(packet) == AboutToDeliver(old(session.Model()))
    {
      hide SessionTable.Inv, SessionsValid, TcpSession.Model, HandleRead, AboutToDeliver, States;
      ghost var was := Model();
      var reported;
      packet, reported := RunReadHandler(session);
      if reported {
        ForgetFailed(session, was);
      } else {
        assert Model() == was;
      }
    }

    /** A completed read: the packet, if the read ends one, is handed to its
        consumer, whose reply goes out through the table; a bad header takes
        the session out of the table. */
    method OnReadDone(session: TcpSession) returns (packet: Option<Packet>)
      requires Valid() && session in registered && SessionModel.Enabled(session.Model(), ReadDone(0))
      modifies this`sessions, this`tally, this`calls, session
      modifies MappedAt(session.key)`writeQueue, MappedAt(session.key)`writing
      modifies MappedAt(session.key)`outgoing, MappedAt(session.key)`sent
      ensures Listed(packet) == AboutToDeliver(old(session.Model()))
      ensures Model() ==
        if old(session.IsOpen()) && !session.IsOpen() then Fail(old(Model()), session) else old(Model())
      ensures Valid() && session.key == old(session.key)
      ensures sessions.Values <= registered
      ensures var handled := old(States())[session := HandleRead(old(session.Model()), 0)];
        States() ==
          match ReplyTo(Listed(packet))
          case None => handled
          case Some(r) => SendVia(handled, sessions, session.key, r)
      ensures sessions == old(sessions) || sessions == old(sessions) - {session.key}
      ensures session.key in sessions ==>
        sessions[session.key].sent == old(sessions[session.key].sent) +
          if packet.None? then []
          else if packet.value.header.kind == PING then [MakePacket(PONG, [])]
          else if packet.value.header.kind == MSG_TEXT then [MakePacket(MSG_RECEIPT, DELIVERED)] else []
      ensures calls == old(calls) +
        (if old(session.IsOpen()) && !session.IsOpen() then [LostPeer(session.key)] else []) +
        (if packet.None? || packet.value.header.kind == PING then [] else [Message(session.key, packet.value)])
    {
      hide SessionTable.Inv, SessionsValid, TcpSession.Model, States;
      hide HandleRead, AboutToDeliver, Reply, SendVia, Fail;
      MappedAreRegistered();
      packet := FinishRead(session);
      MappedAreRegistered();
      if packet.Some? {
        OnSessionPacket(session.key, packet.value);
      }
    }

    /** Bytes arrive for one session: no other session sees them. */
    method OnBytes(session: TcpSession, bytes: Bytes)
      requires Valid() && session in registered && SessionModel.Enabled(session.Model(), BytesPlaced(0, bytes))
      modifies session`filled, session.headerBuf, session.payloadBuf
      ensures Model() == old(Model())
      ensures Valid()
      ensures States() == old(States())[session := Place(old(session.Model()), 0, bytes)]
    {
      hide SessionTable.Inv, SessionModel.Enabled, Place, TcpSession.Valid, TcpSession.Model;
      session.PlaceBytes(bytes);
    }

    /** The socket of one session takes bytes. */
    method OnBytesTaken(session: TcpSession, k: nat)
      requires Valid() && session in registered && SessionModel.Enabled(session.Model(), BytesTaken(0, k))
      modifies session`outgoing, session`wire
      ensures Model() == old(Model())
      ensures Valid()
      ensures States() == old(States())[session := Take(old(session.Model()), 0, k)]
    {
      hide SessionTable.Inv, SessionModel.Enabled, Take, TcpSession.Valid, TcpSession.Model, Separate;
      session.TakeBytes(k);
    }

    /** A write of one session has completed. */
    method OnWriteDone(session: TcpSession)
      requires Valid() && session in registered && SessionModel.Enabled(session.Model(), WriteDone(0))
      modifies session`writeQueue, session`writing, session`outgoing
      ensures Model() == old(Model())
      ensures Valid()
      ensures States() == old(States())[session := HandleWrite(old(session.Model()), 0)]
    {
      hide SessionTable.Inv, SessionModel.Enabled, HandleWrite, TcpSession.Valid, TcpSession.Model, Separate;
      session.OnWriteDone();
    }

    /** A failed read or write: an open session reports and leaves the table,
        a closed one stays silent. */
    method OnReadFailed(session: TcpSession)
      requires Valid() && session in registered && SessionModel.Enabled(session.Model(), ReadFailed(0))
      modifies this`sessions, this`tally, this`calls, session
      ensures Model() == Fail(old(Model()), session) && !session.IsOpen()
      ensures Valid()
      ensures calls == old(calls) + if old(session.IsOpen()) then [LostPeer(old(session.key))] else []
    {
      hide SessionTable.Inv, TcpSession.Valid, SessionModel.Inv, HandleReadError;
      ghost var was := Model();
      ReadFailureShape(session);
      var reported := session.OnReadError();
      Finish(session, was, reported);
    }

    method OnWriteFailed(session: TcpSession)
      requires Valid() && session in registered && SessionModel.Enabled(session.Model(), WriteFailed(0))
      modifies this`sessions, this`tally, this`calls, session
      ensures Model() == Fail(old(Model()), session) && !session.IsOpen()
      ensures Valid()
      ensures calls == old(calls) + if old(session.IsOpen()) then [LostPeer(old(session.key))] else []
    {
      hide SessionTable.Inv, TcpSession.Valid, SessionModel.Inv, HandleWriteError, TcpSession.Model;
      ghost var was := Model();
      var reported := session.OnWriteError();
      Finish(session, was, reported);
    }

    method Finish(session: TcpSession, ghost was: Table<TcpSession>, reported: bool)
      requires SessionTable.Inv(was) && SessionsValid() && session in registered && session in was.info
      requires was.info[session].open == reported && session.key == was.info[session].key
      requires Model() == was.(info := After(was, session, reported))
      modifies this`sessions, this`tally, this`calls
      ensures Model() == Fail(was, session)
      ensures Valid()
      ensures calls == old(calls) + if reported then [LostPeer(session.key)] else []
    {
      hide SessionTable.Inv, SessionsValid;
      if reported {
        ForgetFailed(session, was);
      } else {
        assert Model() == was;
      }
    }
  }

  lemma ReadFailureShape(session: TcpSession)
    requires session.Valid() && SessionModel.Enabled(session.Model(), ReadFailed(0))
    ensures session.outstanding != [] && session.filled < session.Target().Length
  {
  }
}
