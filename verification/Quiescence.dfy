/** Two nodes joined by any number of connections, with the reply policy of
    the manager and of main.cpp and no user input: every run is finite. */
module Quiescence {
  import opened Protocol
  import opened Frames
  import opened SessionModel
  import opened SessionRuns
  import opened Delivery
  import opened ReplyPolicy
  import opened ReplyDebt

  /** Each node has one peer, so its session table holds at most one connection. */
  datatype Net = Net(conns: seq<Conn>, atA: Option<nat>, atB: Option<nat>)

  function Mapped(n: Net, s: Side): Option<nat> {
    if s == A then n.atA else n.atB
  }

  function Unmap(n: Net, s: Side): Net {
    if s == A then n.(atA := None) else n.(atB := None)
  }

  function At(c: Conn, s: Side): Session {
    if s == A then c.a else c.b
  }

  datatype Step =
    | Transport(s: Side, j: nat, x: Action)   // bytes move, or a write completes
    | Handle(s: Side, j: nat, i: nat)         // a read completes
    | Break(s: Side, j: nat, x: Action)       // an operation fails
    | Evict(s: Side)                          // discovery gives the peer up

  predicate IsTransport(x: Action) {
    x.Push? || x.Pull? || (x.Local? && x.e.WriteDone?)
  }

  predicate IsBreak(x: Action) {
    x.Local? && (x.e.ReadFailed? || x.e.WriteFailed?)
  }

  /** The action a step performs on its connection. */
  function ActionOf(t: Step): Action {
    match t
    case Transport(s, j, x) => x
    case Handle(s, j, i) => Local(ReadDone(i))
    case Break(s, j, x) => x
    case Evict(s) => Local(Event.Close)
  }

  predicate StepEnabled(n: Net, t: Step) {
    match t
    case Transport(s, j, x) => j < |n.conns| && IsTransport(x) && CanAct(n.conns[j], s, x)
    case Handle(s, j, i) => j < |n.conns| && CanAct(n.conns[j], s, Local(ReadDone(i)))
    case Break(s, j, x) => j < |n.conns| && IsBreak(x) && CanAct(n.conns[j], s, x)
    case Evict(s) => Mapped(n, s).Some?
  }

  /** One action on connection j; if it closes the session, the table entry goes. */
  function ActOn(n: Net, s: Side, j: nat, x: Action): Net
    requires j < |n.conns| && CanAct(n.conns[j], s, x)
  {
    var c := Act(n.conns[j], s, x);
    var m := n.(conns := n.conns[j := c]);
    if !At(n.conns[j], s).closed && At(c, s).closed then Unmap(m, s) else m
  }

  /** Sending through the table: only on a mapped, open connection. */
  function SendFrom(n: Net, s: Side, p: Packet): Net {
    match Mapped(n, s)
    case None => n
    case Some(m) =>
      if m < |n.conns| && !At(n.conns[m], s).closed
      then n.(conns := n.conns[m := Act(n.conns[m], s, Local(SendPacket(p)))])
      else n
  }

  function Respond(n: Net, s: Side, ps: seq<Packet>): Net {
    if ps == [] || Reply(ps[0]).None? then n else SendFrom(n, s, Reply(ps[0]).value)
  }

  function Apply(n: Net, t: Step): Net
    requires StepEnabled(n, t)
  {
    match t
    case Transport(s, j, x) => n.(conns := n.conns[j := Act(n.conns[j], s, x)])
    case Handle(s, j, i) =>
      Respond(ActOn(n, s, j, Local(ReadDone(i))), s, AboutToDeliver(At(n.conns[j], s)))
    case Break(s, j, x) => ActOn(n, s, j, x)
    case Evict(s) =>
      var m := Mapped(n, s).value;
      var d := if m < |n.conns| then n.(conns := n.conns[m := Act(n.conns[m], s, Local(Event.Close))]) else n;
      Unmap(d, s)
  }

  predicate Runs(n: Net, ts: seq<Step>)
    decreases |ts|
  {
    ts == [] || (StepEnabled(n, ts[0]) && Runs(Apply(n, ts[0]), ts[1..]))
  }

  function Final(n: Net, ts: seq<Step>): Net
    requires Runs(n, ts)
    decreases |ts|
  {
    if ts == [] then n else Final(Apply(n, ts[0]), ts[1..])
  }

  // ----- the ranking --------------------------------------------------------

  function Unread(s: Session): nat {
    if s.pendingReads == [] then 0 else |s.pendingReads[0].got|
  }

  /** The packets the receiver has yet to find in the bytes of what was sent. */
  function Unhandled(tx: Session, rx: Session): seq<Packet> {
    var ps := ParseStream(EncodeAll(tx.sent)).packets;
    if |rx.delivered| <= |ps| then ps[|rx.delivered|..] else []
  }

  /** What handling these bytes can still cost on the way back. */
  function Debt(tx: Session, rx: Session): nat {
    Owed(Unhandled(tx, rx)) + TailCost(ParseStream(EncodeAll(tx.sent)).tail)
  }

  /** An upper bound on the steps one direction can still make or cause. */
  function Work(tx: Session, line: Bytes, rx: Session): int {
    3 * (|EncodeAll(tx.sent)| - |tx.wire|) + 2 * |line| + Unread(rx)
    + Backlog(tx) + |rx.pendingReads| + Debt(tx, rx)
  }

  function ConnWork(c: Conn): int {
    Work(c.a, c.ab, c.b) + Work(c.b, c.ba, c.a)
  }

  function TotalWork(cs: seq<Conn>): int {
    if cs == [] then 0 else ConnWork(cs[0]) + TotalWork(cs[1..])
  }

  function Rank(n: Net): int {
    TotalWork(n.conns) + (if n.atA.Some? then 1 else 0) + (if n.atB.Some? then 1 else 0)
  }

  // ----- invariant ----------------------------------------------------------

  predicate NetInv(n: Net) {
    forall j :: 0 <= j < |n.conns| ==> ConnInv(n.conns[j])
  }

  // ----- what one action does to the work of a connection --------------------

  lemma WorkIsNatural(c: Conn)
    requires ConnInv(c)
    ensures Work(c.a, c.ab, c.b) >= 0 && Work(c.b, c.ba, c.a) >= 0
  {
    WriterConserves(c.a);
    WriterConserves(c.b);
  }

  lemma SwapWork(c: Conn)
    ensures ConnWork(c.Swap()) == ConnWork(c)
    ensures ConnInv(c.Swap()) <==> ConnInv(c)
  {
  }

  /** What an action leaves alone on the acting session. */
  lemma TransportFrame(s: Session, e: Event)
    requires Enabled(s, e) && (e.BytesTaken? || e.WriteDone? || e.WriteFailed? || e.BytesPlaced?)
    ensures SessionModel.Apply(s, e).sent == s.sent && SessionModel.Apply(s, e).delivered == s.delivered
    ensures !e.BytesTaken? ==> SessionModel.Apply(s, e).wire == s.wire
    ensures !e.BytesPlaced? ==> SessionModel.Apply(s, e).pendingReads == s.pendingReads
  {
  }

  lemma SameDebt(s: Session, t: Session, rx: Session, ry: Session)
    requires s.sent == t.sent && rx.delivered == ry.delivered
    ensures Debt(s, rx) == Debt(t, ry)
  {
  }

  lemma {:induction false} PushWorks(c: Conn, i: nat, k: nat)
    requires ConnInv(c) && EnabledAtA(c, Push(i, k))
    ensures ConnWork(ApplyAtA(c, Push(i, k))) < ConnWork(c)
  {
    hide ConnInv, EncodeAll, Debt;
    var d := ApplyAtA(c, Push(i, k));
    SameDebt(c.a, d.a, c.b, d.b);
    SameDebt(c.b, d.b, c.a, d.a);
  }

  lemma {:induction false} PullWorks(c: Conn, i: nat, k: nat)
    requires ConnInv(c) && EnabledAtA(c, Pull(i, k))
    ensures ConnWork(ApplyAtA(c, Pull(i, k))) < ConnWork(c)
  {
    hide ConnInv, EncodeAll, Debt;
    var d := ApplyAtA(c, Pull(i, k));
    ReaderShape(c.a) by { ConnParts(c); }
    SameDebt(c.a, d.a, c.b, d.b);
    SameDebt(c.b, d.b, c.a, d.a);
  }

  lemma {:induction false} WriteDoneWorks(c: Conn, i: nat)
    requires ConnInv(c) && EnabledAtA(c, Local(WriteDone(i)))
    ensures ConnWork(ApplyAtA(c, Local(WriteDone(i)))) < ConnWork(c)
  {
    hide ConnInv, EncodeAll, Debt;
    var d := ApplyAtA(c, Local(WriteDone(i)));
    WriterShape(c.a) by { ConnParts(c); }
    BacklogStep(c.a, WriteDone(i));
    SameDebt(c.a, d.a, c.b, d.b);
    SameDebt(c.b, d.b, c.a, d.a);
  }

  lemma {:induction false} TransportWorks(c: Conn, x: Action)
    requires ConnInv(c) && EnabledAtA(c, x) && IsTransport(x)
    ensures ConnInv(ApplyAtA(c, x)) && ConnWork(ApplyAtA(c, x)) < ConnWork(c)
  {
    hide ConnInv, ConnWork, Enabled, SessionModel.Apply;
    ActAtAKeeps(c, x);
    match x {
      case Push(i, k) => PushWorks(c, i, k);
      case Pull(i, k) => PullWorks(c, i, k);
      case Local(e) => WriteDoneWorks(c, e.i);
    }
  }

  lemma WriterShape(s: Session)
    requires Inv(s)
    ensures |s.pendingWrites| <= 1 && (!s.writing ==> s.pendingWrites == [])
  {
  }

  lemma ReaderShape(s: Session)
    requires Inv(s)
    ensures |s.pendingReads| <= 1
  {
  }

  lemma ReadDoneShape(s: Session, i: nat)
    requires ReaderInv(s) && Enabled(s, ReadDone(i))
    ensures var t := HandleRead(s, i);
      && Unread(s) > 0 && Unread(t) == 0 && |t.pendingReads| <= |s.pendingReads|
      && t.sent == s.sent && t.wire == s.wire && Backlog(t) == Backlog(s)
  {
    hide DeserializeHeader;
    assert Remove(s.pendingReads, i) == [];
  }

  /** What was delivered on one side is the first part of what the bytes sent
      on the other side mean. */
  lemma DeliveredOfStream(c: Conn)
    requires ConnInv(c)
    ensures c.a.delivered <= ParseStream(EncodeAll(c.b.sent)).packets
  {
    hide Inv, Arrived, Untaken, ParseStream;
    WriterConserves(c.b) by { InvParts(c.b); }
    ReaderIsParser(c.a) by { InvParts(c.a); }
    assert Arrived(c.a) <= EncodeAll(c.b.sent);
    ParsePrefixMonotone(Arrived(c.a), EncodeAll(c.b.sent));
  }

  /** A handler takes the packet it delivers off the list of unhandled ones. */
  lemma {:induction false} HandlingDebt(c: Conn, d: Conn, i: nat)
    requires ConnInv(c) && EnabledAtA(c, Local(ReadDone(i)))
    requires ConnInv(d) && d == ApplyAtA(c, Local(ReadDone(i)))
    ensures Debt(c.b, c.a) == Owed(AboutToDeliver(c.a)) + Debt(d.b, d.a)
  {
    hide ConnInv, HandleRead, AboutToDeliver, Encode, EncodeAll, ParseStream, Owed;
    InvParts(c.a) by { ConnParts(c); }
    ReadDoneMovesNoByte(c.a, i);
    DeliveredOfStream(c);
    DeliveredOfStream(d);
    var ps, n := ParseStream(EncodeAll(c.b.sent)).packets, |c.a.delivered|;
    var m := |d.a.delivered|;
    assert ps[n..m] == AboutToDeliver(c.a);
    assert ps[n..] == ps[n..m] + ps[m..];
    OwedAppend(ps[n..m], ps[m..]);
  }

  lemma ConnParts(c: Conn)
    requires ConnInv(c)
    ensures Inv(c.a) && Inv(c.b)
  {
  }

  /** Handling a packet pays for the reply it may cause. */
  lemma {:induction false} HandlingWorks(c: Conn, i: nat)
    requires ConnInv(c) && EnabledAtA(c, Local(ReadDone(i)))
    ensures var d := ApplyAtA(c, Local(ReadDone(i)));
      ConnInv(d) && ConnWork(d) + Owed(AboutToDeliver(c.a)) < ConnWork(c)
  {
    hide Inv, ConnInv, EncodeAll, HandleRead, AboutToDeliver, Owed, Debt;
    var d := ApplyAtA(c, Local(ReadDone(i)));
    ActAtAKeeps(c, Local(ReadDone(i)));
    InvParts(c.a) by { ConnParts(c); }
    ReadDoneShape(c.a, i);
    HandlingDebt(c, d, i);
    SameDebt(c.a, d.a, c.b, d.b);
  }

  lemma {:induction false} BreakingWorks(c: Conn, x: Action)
    requires ConnInv(c) && EnabledAtA(c, x) && IsBreak(x)
    ensures ConnInv(ApplyAtA(c, x)) && ConnWork(ApplyAtA(c, x)) < ConnWork(c)
  {
    hide Inv, EncodeAll, Debt;
    ActAtAKeeps(c, x);
    WriterShape(c.a);
    ReaderShape(c.a);
    var d := ApplyAtA(c, x);
    assert d.a.sent == c.a.sent && d.a.delivered == c.a.delivered;
    SameDebt(c.a, d.a, c.b, d.b);
    SameDebt(c.b, d.b, c.a, d.a);
    if x.e.WriteFailed? {
      BacklogStep(c.a, x.e);
      TransportFrame(c.a, x.e);
    } else {
      assert Remove(c.a.pendingReads, x.e.i) == [];
    }
  }

  lemma {:induction false} ClosingWorks(c: Conn)
    requires ConnInv(c)
    ensures var d := ApplyAtA(c, Local(Event.Close)); ConnInv(d) && ConnWork(d) == ConnWork(c)
  {
    hide ConnInv, EncodeAll, Debt;
    ActAtAKeeps(c, Local(Event.Close));
    var d := ApplyAtA(c, Local(Event.Close));
    SameDebt(c.a, d.a, c.b, d.b);
    SameDebt(c.b, d.b, c.a, d.a);
  }

  lemma SendShape(s: Session, p: Packet)
    requires Inv(s)
    ensures var t := SessionModel.Send(s, p);
      && t.sent == s.sent + [p] && t.wire == s.wire && Backlog(t) == Backlog(s) + 1
      && t.pendingReads == s.pendingReads && t.delivered == s.delivered
  {
  }

  /** Sending a reply costs its own bytes and completion, and nothing on top. */
  lemma {:induction false} SendingWorks(c: Conn, p: Packet)
    requires ConnInv(c) && IsReply(p)
    ensures var d := ApplyAtA(c, Local(SendPacket(p)));
      ConnInv(d) && ConnWork(d) <= ConnWork(c) + 3 * |Encode(p)| + 1
  {
    hide ConnInv, SessionModel.Send, EncodeAll, Debt, Encode, IsReply;
    ActAtAKeeps(c, Local(SendPacket(p)));
    SendShape(c.a, p) by { ConnParts(c); }
    EncodeAllSnoc(c.a.sent, p);
    var d := ApplyAtA(c, Local(SendPacket(p)));
    SendingDebt(c, d, p);
    SameDebt(c.b, d.b, c.a, d.a);
  }

  lemma SendingDebt(c: Conn, d: Conn, p: Packet)
    requires ConnInv(c) && IsReply(p)
    requires d.a.sent == c.a.sent + [p] && d.b.delivered == c.b.delivered
    ensures Debt(d.a, d.b) <= Debt(c.a, c.b)
  {
    hide ConnInv, EncodeAll, Encode, ParseStream, Owed, IsReply, TailCost;
    EncodeAllSnoc(c.a.sent, p);
    ReplyAddsNoDebt(EncodeAll(c.a.sent), p);
    SwapKeeps(c);
    DeliveredOfStream(c.Swap());
    var ps, qs := ParseStream(EncodeAll(c.a.sent)).packets, ParseStream(EncodeAll(d.a.sent)).packets;
    var n := |c.b.delivered|;
    assert qs[n..] == ps[n..] + qs[|ps|..];
    OwedAppend(ps[n..], qs[|ps|..]);
  }

  // ----- the network --------------------------------------------------------

  lemma {:induction false} TotalUpdate(cs: seq<Conn>, j: nat, c: Conn)
    requires j < |cs|
    ensures TotalWork(cs[j := c]) == TotalWork(cs) - ConnWork(cs[j]) + ConnWork(c)
  {
    hide ConnWork;
    if j == 0 {
      assert cs[0 := c][1..] == cs[1..];
    } else {
      assert cs[j := c][1..] == cs[1..][j - 1 := c];
      TotalUpdate(cs[1..], j - 1, c);
    }
  }

  lemma {:induction false} RankIsNatural(cs: seq<Conn>)
    requires forall j :: 0 <= j < |cs| ==> ConnInv(cs[j])
    ensures TotalWork(cs) >= 0
  {
    if cs != [] {
      WorkIsNatural(cs[0]);
      RankIsNatural(cs[1..]);
    }
  }

  /** The work done by one action, on whichever side it happens. */
  lemma {:induction false} ActWorks(c: Conn, s: Side, x: Action)
    requires ConnInv(c) && CanAct(c, s, x)
    ensures IsTransport(x) || IsBreak(x) ==> ConnInv(Act(c, s, x)) && ConnWork(Act(c, s, x)) < ConnWork(c)
    ensures x.Local? && x.e.ReadDone? ==>
      ConnInv(Act(c, s, x)) && ConnWork(Act(c, s, x)) + Owed(AboutToDeliver(At(c, s))) < ConnWork(c)
    ensures x == Local(Event.Close) ==> ConnInv(Act(c, s, x)) && ConnWork(Act(c, s, x)) == ConnWork(c)
    ensures x.Local? && x.e.SendPacket? && IsReply(x.e.p) ==>
      ConnInv(Act(c, s, x)) && ConnWork(Act(c, s, x)) <= ConnWork(c) + 3 * |Encode(x.e.p)| + 1
  {
    hide ConnInv, ConnWork, Owed, AboutToDeliver, IsReply, Encode, EnabledAtA, ApplyAtA;
    var w := if s == A then c else c.Swap();
    SwapWork(c);
    SwapWork(ApplyAtA(w, x));
    if IsTransport(x) {
      TransportWorks(w, x);
    } else if IsBreak(x) {
      BreakingWorks(w, x);
    } else if x.Local? {
      match x.e {
        case ReadDone(i) => HandlingWorks(w, i);
        case Close => ClosingWorks(w);
        case SendPacket(p) => if IsReply(p) { SendingWorks(w, p); }
        case _ =>
      }
    }
  }

  lemma {:induction false} ActOnWorks(n: Net, s: Side, j: nat, x: Action)
    requires NetInv(n) && j < |n.conns| && CanAct(n.conns[j], s, x)
    requires IsTransport(x) || IsBreak(x) || (x.Local? && x.e.ReadDone?)
    ensures NetInv(ActOn(n, s, j, x))
    ensures Rank(ActOn(n, s, j, x)) < Rank(n)
    ensures x.Local? && x.e.ReadDone? ==>
      Rank(ActOn(n, s, j, x)) + Owed(AboutToDeliver(At(n.conns[j], s))) < Rank(n)
  {
    hide ConnInv, ConnWork, Owed, AboutToDeliver, CanAct, Act;
    ActWorks(n.conns[j], s, x);
    TotalUpdate(n.conns, j, Act(n.conns[j], s, x));
  }

  lemma {:induction false} RespondWorks(n: Net, s: Side, ps: seq<Packet>)
    requires NetInv(n) && |ps| <= 1
    ensures NetInv(Respond(n, s, ps)) && Rank(Respond(n, s, ps)) <= Rank(n) + Owed(ps)
  {
    hide ConnInv, ConnWork, Act, Encode, Reply, IsReply, ReplyCost;
    if ps != [] && Reply(ps[0]).Some? && Mapped(n, s).Some? {
      var r, m := Reply(ps[0]).value, Mapped(n, s).value;
      if m < |n.conns| && !At(n.conns[m], s).closed {
        RepliesEnd(ps[0]);
        var x := Local(SendPacket(r));
        ActWorks(n.conns[m], s, x);
        TotalUpdate(n.conns, m, Act(n.conns[m], s, x));
      }
    }
  }

  lemma {:induction false} EvictWorks(n: Net, s: Side)
    requires NetInv(n) && Mapped(n, s).Some?
    ensures NetInv(Apply(n, Evict(s))) && Rank(Apply(n, Evict(s))) < Rank(n)
  {
    hide ConnInv, ConnWork, Act;
    var m := Mapped(n, s).value;
    if m < |n.conns| {
      ActWorks(n.conns[m], s, Local(Event.Close));
      TotalUpdate(n.conns, m, Act(n.conns[m], s, Local(Event.Close)));
    }
  }

  /** Every step lowers the rank. */
  lemma {:induction false} StepWorks(n: Net, t: Step)
    requires NetInv(n) && StepEnabled(n, t)
    ensures NetInv(Apply(n, t)) && Rank(Apply(n, t)) < Rank(n)
  {
    hide NetInv, Rank, AboutToDeliver, CanAct, Act, Respond;
    match t {
      case Transport(s, j, x) => TransportStep(n, s, j, x);
      case Handle(s, j, i) =>
        ActOnWorks(n, s, j, Local(ReadDone(i)));
        RespondWorks(ActOn(n, s, j, Local(ReadDone(i))), s, AboutToDeliver(At(n.conns[j], s)));
      case Break(s, j, x) => ActOnWorks(n, s, j, x);
      case Evict(s) => EvictWorks(n, s);
    }
  }

  lemma {:induction false} TransportStep(n: Net, s: Side, j: nat, x: Action)
    requires NetInv(n) && StepEnabled(n, Transport(s, j, x))
    ensures var m := Apply(n, Transport(s, j, x)); NetInv(m) && Rank(m) < Rank(n)
  {
    hide ConnInv, ConnWork, CanAct, Act;
    ActWorks(n.conns[j], s, x);
    TotalUpdate(n.conns, j, Act(n.conns[j], s, x));
  }

  /** Quiescence. From any state, with no user input and no new connections,
      at most `Rank(n)` steps of any kind can follow, in any order: bytes moved,
      packets handled, replies sent, failures and evictions all together. */
  lemma {:induction false} EveryRunEnds(n: Net, ts: seq<Step>)
    requires NetInv(n) && Runs(n, ts)
    ensures NetInv(Final(n, ts)) && 0 <= Rank(Final(n, ts)) <= Rank(n) - |ts|
    decreases |ts|
  {
    RankIsNatural(n.conns);
    if ts != [] {
      StepWorks(n, ts[0]);
      EveryRunEnds(Apply(n, ts[0]), ts[1..]);
    }
  }

  // ----- where runs end -----------------------------------------------------

  predicate IsProgress(t: Step) {
    t.Transport? || t.Handle?
  }

  /** No byte can move and no handler is waiting, on any connection. */
  ghost predicate AtRest(n: Net) {
    forall t: Step :: IsProgress(t) ==> !StepEnabled(n, t)
  }

  /** From every state the transport, left alone, comes to rest. */
  lemma {:induction false} RunToRest(n: Net) returns (ts: seq<Step>)
    requires NetInv(n)
    ensures Runs(n, ts) && AtRest(Final(n, ts)) && NetInv(Final(n, ts))
    ensures |ts| <= Rank(n) && (forall t <- ts :: IsProgress(t))
    decreases Rank(n)
  {
    RankIsNatural(n.conns);
    if AtRest(n) {
      ts := [];
    } else {
      var t :| IsProgress(t) && StepEnabled(n, t);
      StepWorks(n, t);
      var rest := RunToRest(Apply(n, t));
      ts := [t] + rest;
      assert ts[1..] == rest;
    }
  }

  lemma RestIsSettled(n: Net, j: nat)
    requires AtRest(n) && j < |n.conns|
    ensures Settled(n.conns[j]) && Settled(n.conns[j].Swap())
  {
    var c := n.conns[j];
    assert c.Swap().Swap() == c;
    forall s: Side, x: Action | IsTransport(x) ensures !CanAct(c, s, x) {
      assert !StepEnabled(n, Transport(s, j, x));
    }
    forall s: Side, i: nat ensures !CanAct(c, s, Local(ReadDone(i))) {
      assert !StepEnabled(n, Handle(s, j, i));
    }
    SideSwaps(c);
  }

  lemma SideSwaps(c: Conn)
    ensures forall x: Action :: CanAct(c.Swap(), A, x) == CanAct(c, B, x) && CanAct(c.Swap(), B, x) == CanAct(c, A, x)
  {
    assert c.Swap().Swap() == c;
  }

  /** At rest, a connection whose two ends are still open has delivered, in
      both directions, what the bytes of all packets sent on it mean: if no
      length field has wrapped, all these packets, user messages, pings and the
      replies they caused. */
  lemma RestIsComplete(n: Net, j: nat)
    requires NetInv(n) && AtRest(n) && j < |n.conns|
    requires var c := n.conns[j]; c.a.started && c.b.started && !c.a.closed && !c.b.closed
    ensures var c := n.conns[j];
      && c.b.delivered == ParseStream(EncodeAll(c.a.sent)).packets
      && c.a.delivered == ParseStream(EncodeAll(c.b.sent)).packets
      && (FirstBadIsRefused(c.a.sent) ==> c.b.delivered == NormaliseAll(c.a.sent))
      && (FirstBadIsRefused(c.b.sent) ==> c.a.delivered == NormaliseAll(c.b.sent))
  {
    hide ConnInv, CanAct, AtRest, Settled, FirstBadIsRefused;
    var c := n.conns[j];
    RestIsSettled(n, j);
    SwapKeeps(c);
    RestHasParsedAll(c);
    RestHasParsedAll(c.Swap());
    if FirstBadIsRefused(c.a.sent) {
      OpenMeansAllValid(c.a.sent);
    }
    if FirstBadIsRefused(c.b.sent) {
      OpenMeansAllValid(c.b.sent);
    }
  }

  lemma OpenMeansAllValid(ps: seq<Packet>)
    requires !ParseStream(EncodeAll(ps)).tail.Refused? && FirstBadIsRefused(ps)
    ensures ParseStream(EncodeAll(ps)).packets == NormaliseAll(ps)
  {
    ParseOfSent(ps);
    assert ValidPrefix(ps) == ps;
  }

  // ----- every packet arrives -----------------------------------------------

  /** Both ends up, and nothing sent that the format cannot carry. */
  predicate Healthy(c: Conn) {
    && ConnInv(c)
    && c.a.started && c.b.started && !c.a.closed && !c.b.closed
    && (forall p <- c.a.sent :: Valid(p)) && (forall p <- c.b.sent :: Valid(p))
  }

  /** What was sent on one connection only grows. */
  predicate Extends(c: Conn, d: Conn) {
    c.a.sent <= d.a.sent && c.b.sent <= d.b.sent
  }

  /** A session that is up and reads only valid packets stays up. */
  lemma {:induction false} GoodBytesKeepOpen(c: Conn, x: Action)
    requires Healthy(c) && EnabledAtA(c, x) && (IsTransport(x) || (x.Local? && x.e.ReadDone?))
    requires ConnInv(ApplyAtA(c, x))
    ensures Healthy(ApplyAtA(c, x)) && Extends(c, ApplyAtA(c, x))
  {
    hide Inv, ConnInv, FirstBadIsRefused;
    var d := ApplyAtA(c, x);
    assert d.b == c.b;
    if x.Local? {
      KeepsSentAndStarted(c.a, x.e);
      ClosesOnlyByRefusing(c.a, x.e);
      if d.a.refused {
        SwapKeeps(d);
        AllValidPrefix(c.b.sent);
        RefusalIsExact(d.Swap());
      }
    }
  }

  lemma AllValidPrefix(ps: seq<Packet>)
    requires forall p <- ps :: Valid(p)
    ensures ValidPrefix(ps) == ps && FirstBadIsRefused(ps)
  {
  }

  lemma {:induction false} KeepsSentAndStarted(s: Session, e: Event)
    requires Enabled(s, e) && (e.WriteDone? || e.ReadDone?)
    ensures var t := SessionModel.Apply(s, e); t.sent == s.sent && t.started == s.started
  {
    hide Encode, HandleRead;
    if e.ReadDone? {
      ReadDoneFrame(s, e.i);
    }
  }

  /** A new connection is healthy once both ends have started reading. */
  lemma NewConnectionIsHealthy()
    ensures CanAct(Opened(), A, Local(Start)) && CanAct(Act(Opened(), A, Local(Start)), B, Local(Start))
    ensures Healthy(Act(Act(Opened(), A, Local(Start)), B, Local(Start)))
  {
    OpenedInv();
    ActKeeps(Opened(), A, Local(Start));
    ActKeeps(Act(Opened(), A, Local(Start)), B, Local(Start));
  }

  /** Sending a valid packet keeps a connection healthy. */
  lemma SendKeepsHealthy(c: Conn, s: Side, p: Packet)
    requires Healthy(c) && Valid(p)
    ensures Healthy(Act(c, s, Local(SendPacket(p)))) && Extends(c, Act(c, s, Local(SendPacket(p))))
  {
    hide Inv, ConnInv, Valid;
    var me := At(c, s);
    ConnParts(c);
    ActKeeps(c, s, Local(SendPacket(p)));
    SentStep(me, SendPacket(p));
    assert SessionModel.Send(me, p).sent == me.sent + [p];
  }

  lemma {:induction false} ActKeepsHealthy(c: Conn, s: Side, x: Action)
    requires Healthy(c) && CanAct(c, s, x) && (IsTransport(x) || (x.Local? && x.e.ReadDone?))
    ensures Healthy(Act(c, s, x)) && Extends(c, Act(c, s, x))
  {
    hide ConnInv, EnabledAtA, ApplyAtA, AboutToDeliver, ConnWork, Owed, ReplyCost, Valid, Encode;
    ActWorks(c, s, x);
    var w := if s == A then c else c.Swap();
    SwapWork(c);
    SwapWork(ApplyAtA(w, x));
    GoodBytesKeepOpen(w, x);
  }

  /** The step neither breaks nor gives up connection j; whatever it does to
      another connection does not matter. */
  predicate Spares(n: Net, t: Step, j: nat) {
    match t
    case Break(s, k, x) => k != j
    case Evict(s) => Mapped(n, s) != Some(j)
    case _ => true
  }

  predicate SparesAll(n: Net, ts: seq<Step>, j: nat)
    requires Runs(n, ts)
    decreases |ts|
  {
    ts == [] || (Spares(n, ts[0], j) && SparesAll(Apply(n, ts[0]), ts[1..], j))
  }

  lemma {:induction false} SendFromKeepsHealthy(n: Net, s: Side, p: Packet, j: nat)
    requires j < |n.conns| && Healthy(n.conns[j]) && Valid(p)
    ensures var m := SendFrom(n, s, p);
      |m.conns| == |n.conns| && Healthy(m.conns[j]) && Extends(n.conns[j], m.conns[j])
  {
    hide Act, Encode, Valid, Healthy;
    if Mapped(n, s) == Some(j) && !At(n.conns[j], s).closed {
      SendKeepsHealthy(n.conns[j], s, p);
    }
  }

  lemma {:induction false} RespondKeepsHealthy(n: Net, s: Side, ps: seq<Packet>, j: nat)
    requires j < |n.conns| && Healthy(n.conns[j])
    ensures var m := Respond(n, s, ps);
      |m.conns| == |n.conns| && Healthy(m.conns[j]) && Extends(n.conns[j], m.conns[j])
  {
    hide SendFrom, Reply, Valid, Healthy, IsReply, ReplyCost;
    if ps != [] && Reply(ps[0]).Some? {
      RepliesEnd(ps[0]);
      SendFromKeepsHealthy(n, s, Reply(ps[0]).value, j);
    }
  }

  lemma {:induction false} StepKeepsHealthy(n: Net, t: Step, j: nat)
    requires j < |n.conns| && Healthy(n.conns[j]) && StepEnabled(n, t) && Spares(n, t, j)
    ensures var m := Apply(n, t);
      |m.conns| == |n.conns| && Healthy(m.conns[j]) && Extends(n.conns[j], m.conns[j])
  {
    hide Healthy, CanAct, Act, Respond, AboutToDeliver;
    match t {
      case Transport(s, k, x) => if k == j { ActKeepsHealthy(n.conns[j], s, x); }
      case Handle(s, k, i) =>
        if k == j {
          ActKeepsHealthy(n.conns[j], s, Local(ReadDone(i)));
        }
        RespondKeepsHealthy(ActOn(n, s, k, Local(ReadDone(i))), s, AboutToDeliver(At(n.conns[k], s)), j);
      case _ =>
    }
  }

  lemma {:induction false} RunKeepsHealthy(n: Net, ts: seq<Step>, j: nat)
    requires j < |n.conns| && Healthy(n.conns[j]) && Runs(n, ts) && SparesAll(n, ts, j)
    ensures var m := Final(n, ts);
      |m.conns| == |n.conns| && Healthy(m.conns[j]) && Extends(n.conns[j], m.conns[j])
    decreases |ts|
  {
    hide Healthy, StepEnabled, Apply, Spares;
    if ts != [] {
      StepKeepsHealthy(n, ts[0], j);
      RunKeepsHealthy(Apply(n, ts[0]), ts[1..], j);
    }
  }

  /** A connection that is up stays up in every run that does not break it or
      give it up, whatever happens to other connections; and when the run has
      come to rest, it has delivered every packet ever sent on it, both ways. */
  lemma {:induction false} EverythingArrives(n: Net, ts: seq<Step>, j: nat)
    requires NetInv(n) && j < |n.conns| && Healthy(n.conns[j])
    requires Runs(n, ts) && SparesAll(n, ts, j) && AtRest(Final(n, ts))
    ensures var m := Final(n, ts);
      && |m.conns| == |n.conns| && Healthy(m.conns[j]) && Extends(n.conns[j], m.conns[j])
      && m.conns[j].b.delivered == NormaliseAll(m.conns[j].a.sent)
      && m.conns[j].a.delivered == NormaliseAll(m.conns[j].b.sent)
  {
    hide StepEnabled, Apply, AtRest, Spares, NetInv, ConnInv, FirstBadIsRefused;
    RunKeepsHealthy(n, ts, j);
    EveryRunEnds(n, ts);
    var m := Final(n, ts);
    RestIsComplete(m, j);
    AllValidPrefix(m.conns[j].a.sent);
    AllValidPrefix(m.conns[j].b.sent);
  }
}
