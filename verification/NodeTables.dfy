/** The system of two nodes follows the session table: what its moves do to the
    one table entry of a node is what SessionTable and the manager object do. */
module NodeTables {
  import opened Protocol
  import opened SessionModel
  import opened SessionRuns
  import opened Delivery
  import opened ReplyPolicy
  import opened Quiescence
  import opened Nodes
  import opened SessionTable

  const PEER: Key := "peer"   // the only address a node ever sees

  function MapOf(n: Net, s: Side): map<Key, nat> {
    match Mapped(n, s)
    case None => map[]
    case Some(m) => map[PEER := m]
  }

  function EndsOf(n: Net, s: Side): map<nat, Session> {
    map j: nat | j < |n.conns| :: At(n.conns[j], s)
  }

  function InfoOf(s: Session): Info {
    Info(PEER, !s.closed, s.reports)
  }

  /** The sessions a node has registered. */
  function InfosOf(n: Net, s: Side): map<nat, Info> {
    map j: nat | j < |n.conns| && At(n.conns[j], s).started :: InfoOf(At(n.conns[j], s))
  }

  /** The session table of one node. */
  function TableOf(n: Net, s: Side): Table<nat> {
    Table(MapOf(n, s), InfosOf(n, s), multiset{}, Tally(0, 0, 0, 0, 0, 0))
  }

  /** Equal but for the counters. */
  predicate SameTable<S>(t: Table<S>, u: Table<S>) {
    t.mapped == u.mapped && t.info == u.info
  }

  /** A node's end of a connection is up exactly when it is mapped: that is what
      the table invariant says. */
  lemma FitsIsConsistent(n: Net, s: Side)
    ensures Fits(n, s) <==> Consistent(TableOf(n, s))
  {
    hide At;
    var t := TableOf(n, s);
    if Fits(n, s) {
      if Mapped(n, s).Some? {
        assert Up(n.conns[Mapped(n, s).value], s);
      }
      forall j <- t.info ensures t.info[j].open <==> IsMapped(t, t.info[j].key, j) {
        assert Up(n.conns[j], s) <==> Mapped(n, s) == Some(j);
      }
    }
    if Consistent(t) {
      if Mapped(n, s).Some? {
        assert PEER in t.mapped && t.mapped[PEER] == Mapped(n, s).value && t.mapped[PEER] in t.info;
      }
      forall j | 0 <= j < |n.conns| ensures Up(n.conns[j], s) <==> Mapped(n, s) == Some(j) {
        if At(n.conns[j], s).started {
          assert j in t.info && (t.info[j].open <==> IsMapped(t, PEER, j));
        }
      }
    }
  }

  // ----- updates of the system, seen in the tables --------------------------

  lemma Update(n: Net, s: Side, j: nat, c: Conn)
    requires j < |n.conns|
    ensures var m := n.(conns := n.conns[j := c]);
      && MapOf(m, s) == MapOf(n, s)
      && EndsOf(m, s) == EndsOf(n, s)[j := At(c, s)]
      && (At(c, s).started ==> InfosOf(m, s) == InfosOf(n, s)[j := InfoOf(At(c, s))])
      && (!At(c, s).started && !At(n.conns[j], s).started ==> InfosOf(m, s) == InfosOf(n, s))
  {
    hide At, InfoOf;
    var m := n.(conns := n.conns[j := c]);
    assert EndsOf(m, s) == EndsOf(n, s)[j := At(c, s)];
  }

  lemma UpdateIsQuiet(n: Net, s: Side, j: nat, c: Conn)
    requires j < |n.conns|
    requires InfoOf(At(c, s)) == InfoOf(At(n.conns[j], s)) && At(c, s).started == At(n.conns[j], s).started
    ensures SameTable(TableOf(n.(conns := n.conns[j := c]), s), TableOf(n, s))
  {
    hide At, InfoOf;
    Update(n, s, j, c);
  }

  lemma UnmapErases(n: Net, s: Side, r: Side)
    ensures MapOf(Unmap(n, s), r) == if r == s then MapOf(n, s) - {PEER} else MapOf(n, r)
    ensures InfosOf(Unmap(n, s), r) == InfosOf(n, r)
  {
    hide At, InfoOf;
  }

  /** What an action does to the entry of the acting end: an error on an open
      session closes it and reports, everything else leaves it alone. */
  lemma ActInfo(c: Conn, s: Side, x: Action)
    requires CanAct(c, s, x) && IsStepAction(x)
    ensures var me, after := At(c, s), At(Act(c, s, x), s);
      && after.started == me.started
      && InfoOf(after) ==
           if !me.closed && after.closed then Info(PEER, false, me.reports + 1) else InfoOf(me)
    ensures forall r: Side :: r != s ==> At(Act(c, s, x), r) == At(c, r)
  {
    hide IsError, HandleRead, DoWrite;
    var me := At(c, s);
    if x.Local? {
      ErrorStep(me, x.e);
      EventEnds(me, x.e);
      if x.e.WriteDone? {
        OperationErrors(me, x.e);
      }
    }
  }

  lemma SendInfo(c: Conn, s: Side, p: Packet)
    ensures CanAct(c, s, Local(SendPacket(p)))
    ensures var d := Act(c, s, Local(SendPacket(p)));
      && At(d, s) == SessionModel.Send(At(c, s), p)
      && InfoOf(At(d, s)) == InfoOf(At(c, s)) && At(d, s).started == At(c, s).started
      && (forall r: Side :: r != s ==> At(d, r) == At(c, r))
  {
    hide Encode;
  }

  lemma CloseInfo(c: Conn, s: Side)
    ensures CanAct(c, s, Local(SessionModel.Event.Close))
    ensures var d := Act(c, s, Local(SessionModel.Event.Close));
      && InfoOf(At(d, s)) == InfoOf(At(c, s)).(open := false) && At(d, s).started == At(c, s).started
      && (forall r: Side :: r != s ==> At(d, r) == At(c, r))
  {
  }

  lemma StartInfo(c: Conn, s: Side)
    requires Tidy(c) && !At(c, s).started
    ensures var d := StartEnd(c, s);
      && At(d, s).started && InfoOf(At(d, s)) == Info(PEER, true, 0)
      && (forall r: Side :: r != s ==> At(d, r) == At(c, r))
  {
  }

  // ----- moves --------------------------------------------------------------

  /** Sending from a node is sending through its table. */
  lemma SendFromIsSendVia(n: Net, s: Side, p: Packet, r: Side)
    requires NodesInv(n)
    ensures EndsOf(SendFrom(n, s, p), s) == SendVia(EndsOf(n, s), MapOf(n, s), PEER, p)
    ensures SameTable(TableOf(SendFrom(n, s, p), r), TableOf(n, r))
  {
    hide SessionModel.Send, Tidy, Fits, At, Act, CanAct, InfosOf, InfoOf;
    if Mapped(n, s).Some? {
      MappedIsUp(n, s);
      var m := Mapped(n, s).value;
      SendInfo(n.conns[m], s, p);
      var d := Act(n.conns[m], s, Local(SendPacket(p)));
      Update(n, s, m, d);
      UpdateIsQuiet(n, r, m, d);
    }
  }

  /** So is answering. */
  lemma RespondIsReply(n: Net, s: Side, ps: seq<Packet>, r: Side)
    requires NodesInv(n)
    ensures EndsOf(Respond(n, s, ps), s) ==
      match ReplyTo(ps)
      case None => EndsOf(n, s)
      case Some(p) => SendVia(EndsOf(n, s), MapOf(n, s), PEER, p)
    ensures SameTable(TableOf(Respond(n, s, ps), r), TableOf(n, r))
  {
    hide NodesInv, SendFrom, SendVia, Reply, TableOf, EndsOf;
    if ReplyTo(ps).Some? {
      SendFromIsSendVia(n, s, ReplyTo(ps).value, r);
    }
  }

  /** A session that fails leaves the table as SessionTable's failure step has
      it, whichever session is mapped; any other action leaves the table alone. */
  lemma ActOnIsFail(n: Net, s: Side, j: nat, x: Action)
    requires NodesInv(n) && j < |n.conns| && CanAct(n.conns[j], s, x) && IsStepAction(x)
    ensures var m, t := ActOn(n, s, j, x), TableOf(n, s);
      && j in t.info
      && SameTable(TableOf(m, s), if t.info[j].open && At(m.conns[j], s).closed then Fail(t, j) else t)
  {
    hide Act, CanAct, At, MapOf, Tidy, Fits;
    EndIsMapped(n, s, j);
    ActorIsStarted(n.conns[j], s, x);
    var d := Act(n.conns[j], s, x);
    var m := n.(conns := n.conns[j := d]);
    ActInfo(n.conns[j], s, x);
    Update(n, s, j, d);
    UnmapErases(m, s, s);
    assert TableOf(n, s).info[j] == InfoOf(At(n.conns[j], s));
    assert InfosOf(ActOn(n, s, j, x), s) == InfosOf(m, s);
  }

  lemma ActOnLeavesPeer(n: Net, s: Side, j: nat, x: Action, r: Side)
    requires j < |n.conns| && CanAct(n.conns[j], s, x) && r != s && IsStepAction(x)
    ensures SameTable(TableOf(ActOn(n, s, j, x), r), TableOf(n, r))
  {
    hide Act, CanAct, At, MapOf, Unmap, InfoOf, InfosOf;
    var d := Act(n.conns[j], s, x);
    ActInfo(n.conns[j], s, x);
    UpdateIsQuiet(n, r, j, d);
    UnmapErases(n.(conns := n.conns[j := d]), s, r);
  }

  lemma CloseMappedIsClosed(n: Net, s: Side)
    requires NodesInv(n)
    ensures var q, t := CloseMapped(n, s), TableOf(n, s);
      && MapOf(q, s) == t.mapped
      && InfosOf(q, s) == if PEER in t.mapped then Closed(t.info, {t.mapped[PEER]}) else t.info
  {
    hide Tidy, Fits, Act, CanAct, At, InfoOf;
    if Mapped(n, s).Some? {
      MappedIsUp(n, s);
      var k, t := Mapped(n, s).value, TableOf(n, s);
      var c := n.conns[k];
      assert At(c, s).started by { UpIsStarted(c, s); }
      CloseInfo(c, s);
      var d := Act(c, s, Local(SessionModel.Event.Close));
      Update(n, s, k, d);
      assert Closed(t.info, {k}) == t.info[k := InfoOf(At(d, s))];
    }
  }

  /** Giving a peer up is SessionTable's eviction. */
  lemma EvictIsEvict(n: Net, s: Side)
    requires NodesInv(n) && Mapped(n, s).Some?
    ensures SameTable(TableOf(Quiescence.Apply(n, Step.Evict(s)), s), SessionTable.Evict(TableOf(n, s), PEER))
  {
    hide NodesInv, Act, CanAct, At, Unmap, InfosOf, Closed;
    CloseMappedIsClosed(n, s);
    UnmapErases(CloseMapped(n, s), s, s);
    assert Quiescence.Apply(n, Step.Evict(s)) == Unmap(CloseMapped(n, s), s);
  }

  lemma RegisterInfos(n: Net, s: Side, j: nat)
    requires NodesInv(n) && j < |n.conns| && !At(n.conns[j], s).started
    ensures var q := RegisterAt(n, s, j);
      && MapOf(q, s) == map[PEER := j]
      && InfosOf(q, s) == InfosOf(CloseMapped(n, s), s)[j := Info(PEER, true, 0)]
  {
    hide Tidy, Fits, Act, CanAct, At, InfoOf, CloseMapped, StartEnd;
    CloseMove(n, s, s);
    var q := MapTo(CloseMapped(n, s), s, j);
    assert InfosOf(q, s) == InfosOf(CloseMapped(n, s), s);
    StartInfo(q.conns[j], s);
    Update(q, s, j, StartEnd(q.conns[j], s));
  }

  /** A registration is SessionTable's: what was mapped is closed, the new entry set. */
  lemma RegisterIsRegister(n: Net, s: Side, j: nat)
    requires NodesInv(n) && j < |n.conns| && !At(n.conns[j], s).started
    ensures SameTable(TableOf(RegisterAt(n, s, j), s), SessionTable.Register(TableOf(n, s), PEER, j))
  {
    hide NodesInv, RegisterAt, InfosOf, CloseMapped, Closed;
    CloseMappedIsClosed(n, s);
    RegisterInfos(n, s, j);
    assert MapOf(n, s)[PEER := j] == map[PEER := j];
  }

  /** Over every run of moves the tables of both nodes keep the invariant of the
      session table, whatever each node has registered so far. */
  lemma {:induction false} RunKeepsTables(n: Net, ms: seq<Move>, s: Side)
    requires NodesInv(n) && Makes(n, ms)
    ensures Consistent(TableOf(Made(n, ms), s))
  {
    hide Consistent, TableOf, Makes, Made, Fits, AllTidy;
    MovesKeep(n, ms);
    FitsBoth(Made(n, ms), s);
    FitsIsConsistent(Made(n, ms), s);
  }
}
