/** The system of two nodes with everything that can happen to it: registrations
    at either node, packets of the clients, transfers and replies, failures, and
    evictions by discovery. Each node has one peer, so its session table holds at
    most one connection. */
module Nodes {
  import opened Protocol
  import opened SessionModel
  import opened SessionRuns
  import opened Delivery
  import opened ReplyPolicy
  import opened Quiescence

  datatype Move =
    | Run(t: Step)                // bytes move, a handler runs, an operation fails, the peer is given up
    | Register(s: Side, j: nat, hello: Option<Bytes>)   // an accept or a connect completes; what the client greets with
    | Say(s: Side, p: Packet)     // the client sends a packet to its peer

  predicate MoveEnabled(n: Net, m: Move) {
    match m
    case Run(t) => StepEnabled(n, t)
    case Register(s, j, hello) => j < |n.conns| && !At(n.conns[j], s).started
    case Say(s, p) => true
  }

  /** What register_session does first: the session mapped so far is closed. */
  function CloseMapped(n: Net, s: Side): Net {
    match Mapped(n, s)
    case None => n
    case Some(m) => if m < |n.conns| then n.(conns := n.conns[m := Act(n.conns[m], s, Local(Event.Close))]) else n
  }

  function MapTo(n: Net, s: Side, j: nat): Net {
    if s == A then n.(atA := Some(j)) else n.(atB := Some(j))
  }

  function StartEnd(c: Conn, s: Side): Conn {
    if CanAct(c, s, Local(Start)) then Act(c, s, Local(Start)) else c
  }

  function RegisterAt(n: Net, s: Side, j: nat): Net
    requires j < |n.conns|
  {
    var m := MapTo(CloseMapped(n, s), s, j);
    m.(conns := m.conns[j := StartEnd(m.conns[j], s)])
  }

  /** The client's callback for a new connection: it sends its handshake. */
  function Greet(n: Net, s: Side, hello: Option<Bytes>): Net {
    match hello
    case None => n
    case Some(text) => SendFrom(n, s, MakePacket(HANDSHAKE, text))
  }

  function Make(n: Net, m: Move): Net
    requires MoveEnabled(n, m)
  {
    match m
    case Run(t) => Quiescence.Apply(n, t)
    case Register(s, j, hello) => Greet(RegisterAt(n, s, j), s, hello)
    case Say(s, p) => SendFrom(n, s, p)
  }

  predicate Registers(m: Move, s: Side, j: nat) {
    m.Register? && m.s == s && m.j == j
  }

  predicate Makes(n: Net, ms: seq<Move>)
    decreases |ms|
  {
    ms == [] || (MoveEnabled(n, ms[0]) && Makes(Make(n, ms[0]), ms[1..]))
  }

  function Made(n: Net, ms: seq<Move>): Net
    requires Makes(n, ms)
    decreases |ms|
  {
    if ms == [] then n else Made(Make(n, ms[0]), ms[1..])
  }

  // ----- the invariant ------------------------------------------------------

  predicate Up(c: Conn, s: Side) {
    At(c, s).started && !At(c, s).closed
  }

  /** One of the ends has been closed. */
  predicate Gone(c: Conn) {
    c.a.closed || c.b.closed
  }

  /** An end that has not been registered has been neither used nor closed. */
  predicate Untouched(s: Session) {
    !s.started ==> !s.closed && !s.writing
  }

  predicate Tidy(c: Conn) {
    ConnInv(c) && Untouched(c.a) && Untouched(c.b)
  }

  /** At a node an end is up exactly when it is the mapped one; connections the
      node has not registered yet do not matter. */
  predicate Fits(n: Net, s: Side) {
    && (Mapped(n, s).Some? ==> Mapped(n, s).value < |n.conns|)
    && (forall j :: 0 <= j < |n.conns| ==> (Up(n.conns[j], s) <==> Mapped(n, s) == Some(j)))
  }

  predicate AllTidy(n: Net) {
    forall j :: 0 <= j < |n.conns| ==> Tidy(n.conns[j])
  }

  predicate NodesInv(n: Net) {
    AllTidy(n) && Fits(n, A) && Fits(n, B)
  }

  lemma FitsBoth(n: Net, s: Side)
    requires NodesInv(n)
    ensures Fits(n, s)
  {
  }

  lemma MappedIsUp(n: Net, s: Side)
    requires NodesInv(n) && Mapped(n, s).Some?
    ensures Mapped(n, s).value < |n.conns| && Up(n.conns[Mapped(n, s).value], s)
  {
    FitsBoth(n, s);
  }

  lemma EndIsMapped(n: Net, s: Side, j: nat)
    requires NodesInv(n) && j < |n.conns|
    ensures Tidy(n.conns[j]) && (Up(n.conns[j], s) <==> Mapped(n, s) == Some(j))
  {
    FitsBoth(n, s);
  }

  lemma NodesAreNet(n: Net)
    requires NodesInv(n)
    ensures NetInv(n) && Rank(n) >= 0
  {
    RankIsNatural(n.conns);
  }

  // ----- what an action does to the ends of a connection --------------------

  predicate IsStepAction(x: Action) {
    IsTransport(x) || IsBreak(x) || (x.Local? && x.e.ReadDone?)
  }

  /** The action ends the session that takes it: an operation fails or a header is refused. */
  predicate Errs(c: Conn, s: Side, x: Action) {
    x.Local? && IsError(At(c, s), x.e)
  }

  lemma ReadingIsStarted(s: Session)
    requires Inv(s) && s.pendingReads != []
    ensures s.started
  {
  }

  /** An unregistered end has no operation that could complete or fail. */
  lemma ActorIsStarted(c: Conn, s: Side, x: Action)
    requires Tidy(c) && CanAct(c, s, x) && IsStepAction(x)
    ensures At(c, s).started
  {
    hide Inv, ConnInv;
    ConnParts(c);
    var me := At(c, s);
    WriterShape(me);
    if me.pendingReads != [] {
      ReadingIsStarted(me);
    }
  }

  lemma EventEnds(s: Session, e: SessionModel.Event)
    requires Enabled(s, e)
    ensures var t := SessionModel.Apply(s, e);
      && t.started == (s.started || e.Start?)
      && (t.closed <==> s.closed || IsError(s, e) || e.Close?)
  {
    hide HandleRead, IsError, Encode;
    ErrorStep(s, e);
    if e.ReadDone? {
      ReadDoneFrame(s, e.i);
    }
  }

  lemma {:induction false} ActEnds(c: Conn, s: Side, x: Action, r: Side)
    requires Tidy(c) && CanAct(c, s, x) && IsStepAction(x)
    ensures var d := Act(c, s, x);
      && Tidy(d) && At(d, r).started == At(c, r).started
      && At(d, r).closed == (At(c, r).closed || (r == s && Errs(c, s, x)))
  {
    hide ConnInv, Enabled, SessionModel.Apply, IsError;
    ActorIsStarted(c, s, x);
    ActKeeps(c, s, x);
    if x.Local? {
      EventEnds(At(c, s), x.e);
    } else {
      MovingBytesEndsNothing(c, s, x);
    }
  }

  lemma MovingBytesEndsNothing(c: Conn, s: Side, x: Action)
    requires CanAct(c, s, x) && !x.Local?
    ensures var d := Act(c, s, x);
      forall r: Side :: At(d, r).started == At(c, r).started && At(d, r).closed == At(c, r).closed
  {
  }

  lemma {:induction false} LocalEnds(c: Conn, s: Side, e: SessionModel.Event, r: Side)
    requires Tidy(c) && (e.Close? || e.SendPacket? ==> At(c, s).started) && (e.Close? || e.SendPacket? || e.Start?)
    requires CanAct(c, s, Local(e))
    ensures var d := Act(c, s, Local(e));
      && Tidy(d) && At(d, r).started == (At(c, r).started || (r == s && e.Start?))
      && At(d, r).closed == (At(c, r).closed || (r == s && e.Close?))
  {
    hide ConnInv, Enabled, SessionModel.Apply, IsError;
    ActKeeps(c, s, Local(e));
    EventEnds(At(c, s), e);
    OperationErrors(At(c, s), e);
  }

  // ----- what a move does to the ends and the tables ------------------------

  /** The connection whose end at the acting node a step brings down, if it was up. */
  function DownBy(n: Net, t: Step): Option<nat>
    requires StepEnabled(n, t)
  {
    if t.Evict? then Mapped(n, t.s)
    else if Errs(n.conns[t.j], t.s, ActionOf(t)) then Some(t.j) else None
  }

  /** The same for a move, at either node: a registration closes what it replaces. */
  function Downs(n: Net, m: Move, r: Side): Option<nat>
    requires MoveEnabled(n, m)
  {
    match m
    case Run(t) => if t.s == r then DownBy(n, t) else None
    case Register(s, j, hello) => if s == r then Mapped(n, s) else None
    case Say(s, p) => None
  }

  /** The ends of the connections, and the tables, after a change in which node r
      starts `up` and brings `down` down. */
  predicate EndsAfter(n: Net, q: Net, r: Side, up: Option<nat>, down: Option<nat>) {
    && |q.conns| == |n.conns|
    && (forall k :: 0 <= k < |n.conns| ==>
          && At(q.conns[k], r).started == (At(n.conns[k], r).started || up == Some(k))
          && At(q.conns[k], r).closed == (At(n.conns[k], r).closed || down == Some(k)))
    && Mapped(q, r) ==
         (if up.Some? then up else if down.Some? && Mapped(n, r) == down then None else Mapped(n, r))
  }

  lemma EndsFit(n: Net, q: Net, r: Side, up: Option<nat>, down: Option<nat>)
    requires NodesInv(n) && EndsAfter(n, q, r, up, down)
    requires up.Some? ==> up.value < |n.conns| && !At(n.conns[up.value], r).started && down == Mapped(n, r)
    ensures Fits(q, r)
  {
    hide Tidy;
    FitsBoth(n, r);
    if up.Some? {
      UnregisteredIsOpen(n, r, up.value);
    }
  }

  lemma UnregisteredIsOpen(n: Net, r: Side, j: nat)
    requires NodesInv(n) && j < |n.conns| && !At(n.conns[j], r).started
    ensures !At(n.conns[j], r).closed
  {
    assert Tidy(n.conns[j]);
  }

  lemma {:induction false} SendMove(n: Net, s: Side, p: Packet, r: Side)
    requires NodesInv(n)
    ensures AllTidy(SendFrom(n, s, p)) && EndsAfter(n, SendFrom(n, s, p), r, None, None)
  {
    hide Tidy, Act, CanAct, Fits;
    if Mapped(n, s).Some? {
      MappedIsUp(n, s);
      var c := n.conns[Mapped(n, s).value];
      assert CanAct(c, s, Local(SendPacket(p))) by { SendingIsPossible(c, s, p); }
      LocalEnds(c, s, SendPacket(p), r);
    }
  }

  lemma SendingIsPossible(c: Conn, s: Side, p: Packet)
    ensures CanAct(c, s, Local(SendPacket(p)))
  {
  }

  lemma {:induction false} RespondMove(n: Net, s: Side, ps: seq<Packet>, r: Side)
    requires NodesInv(n)
    ensures AllTidy(Respond(n, s, ps)) && EndsAfter(n, Respond(n, s, ps), r, None, None)
  {
    hide Tidy, Fits, Reply, SendFrom, EndsAfter;
    if ps != [] && Reply(ps[0]).Some? {
      SendMove(n, s, Reply(ps[0]).value, r);
    } else {
      NothingEnds(n, r);
    }
  }

  lemma NothingEnds(n: Net, r: Side)
    ensures EndsAfter(n, n, r, None, None)
  {
  }

  lemma TwoChanges(n: Net, k: Net, q: Net, r: Side, up: Option<nat>, down: Option<nat>)
    requires EndsAfter(n, k, r, up, down) && EndsAfter(k, q, r, None, None)
    ensures EndsAfter(n, q, r, up, down)
  {
  }

  lemma {:induction false} ActOnMove(n: Net, s: Side, j: nat, x: Action, r: Side)
    requires NodesInv(n) && j < |n.conns| && CanAct(n.conns[j], s, x) && IsStepAction(x)
    ensures var k := ActOn(n, s, j, x); var down := if r == s && Errs(n.conns[j], s, x) then Some(j) else None;
      AllTidy(k) && EndsAfter(n, k, r, None, down)
  {
    hide Tidy, Act, CanAct, Fits, Errs, At;
    ActEnds(n.conns[j], s, x, r);
    ActEnds(n.conns[j], s, x, s);
    EndIsMapped(n, s, j);
    ActorIsStarted(n.conns[j], s, x);
  }

  lemma TransportIsActOn(n: Net, s: Side, j: nat, x: Action)
    requires StepEnabled(n, Transport(s, j, x))
    ensures Quiescence.Apply(n, Transport(s, j, x)) == ActOn(n, s, j, x)
  {
    hide Act, CanAct, HandleRead, IsError;
    var c := n.conns[j];
    if x.Local? {
      WriteDoneEndsNothing(c, s, x);
    } else {
      MovingBytesEndsNothing(c, s, x);
    }
  }

  lemma WriteDoneEndsNothing(c: Conn, s: Side, x: Action)
    requires CanAct(c, s, x) && x.Local? && x.e.WriteDone?
    ensures At(Act(c, s, x), s).closed == At(c, s).closed
  {
    EventEnds(At(c, s), x.e);
    OperationErrors(At(c, s), x.e);
  }

  function HandledBy(n: Net, t: Step): seq<Packet>
    requires StepEnabled(n, t)
  {
    if t.Handle? then AboutToDeliver(At(n.conns[t.j], t.s)) else []
  }

  /** A step other than an eviction is its action on one connection, then the reply. */
  lemma StepParts(n: Net, t: Step)
    requires StepEnabled(n, t) && !t.Evict?
    ensures t.j < |n.conns| && CanAct(n.conns[t.j], t.s, ActionOf(t)) && IsStepAction(ActionOf(t))
    ensures Quiescence.Apply(n, t) == Respond(ActOn(n, t.s, t.j, ActionOf(t)), t.s, HandledBy(n, t))
  {
    hide Act, CanAct, AboutToDeliver;
    if t.Transport? {
      TransportIsActOn(n, t.s, t.j, t.x);
    }
  }

  lemma {:induction false} EvictMove(n: Net, s: Side, r: Side)
    requires NodesInv(n) && Mapped(n, s).Some?
    ensures var q := Quiescence.Apply(n, Evict(s));
      AllTidy(q) && EndsAfter(n, q, r, None, if r == s then Mapped(n, s) else None)
  {
    hide Tidy, Act, CanAct, Fits, At;
    MappedIsUp(n, s);
    var c := n.conns[Mapped(n, s).value];
    assert CanAct(c, s, Local(Event.Close)) by { ClosingIsPossible(c, s); }
    assert At(c, s).started by { UpIsStarted(c, s); }
    LocalEnds(c, s, Event.Close, r);
  }

  lemma ClosingIsPossible(c: Conn, s: Side)
    ensures CanAct(c, s, Local(Event.Close))
  {
  }

  lemma UpIsStarted(c: Conn, s: Side)
    requires Up(c, s)
    ensures At(c, s).started
  {
  }

  lemma {:induction false} ActedInv(n: Net, s: Side, j: nat, x: Action)
    requires NodesInv(n) && j < |n.conns| && CanAct(n.conns[j], s, x) && IsStepAction(x)
    ensures NodesInv(ActOn(n, s, j, x))
  {
    hide Tidy, Fits, CanAct, ActOn, Errs, EndsAfter;
    var k := ActOn(n, s, j, x);
    ActOnMove(n, s, j, x, A);
    ActOnMove(n, s, j, x, B);
    EndsFit(n, k, A, None, if A == s && Errs(n.conns[j], s, x) then Some(j) else None);
    EndsFit(n, k, B, None, if B == s && Errs(n.conns[j], s, x) then Some(j) else None);
  }

  lemma {:induction false} StepMove(n: Net, t: Step, r: Side)
    requires NodesInv(n) && StepEnabled(n, t)
    ensures AllTidy(Quiescence.Apply(n, t))
    ensures EndsAfter(n, Quiescence.Apply(n, t), r, None, Downs(n, Run(t), r))
  {
    hide AllTidy, Fits, CanAct, Act, ActOn, Respond, AboutToDeliver, Errs, EndsAfter;
    if t.Evict? {
      EvictMove(n, t.s, r);
    } else {
      StepParts(n, t);
      var k := ActOn(n, t.s, t.j, ActionOf(t));
      ActOnMove(n, t.s, t.j, ActionOf(t), r);
      ActedInv(n, t.s, t.j, ActionOf(t));
      RespondMove(k, t.s, HandledBy(n, t), r);
      TwoChanges(n, k, Quiescence.Apply(n, t), r, None, Downs(n, Run(t), r));
    }
  }

  lemma {:induction false} CloseMove(n: Net, s: Side, r: Side)
    requires NodesInv(n)
    ensures var q := CloseMapped(n, s);
      && AllTidy(q) && |q.conns| == |n.conns|
      && (forall k :: 0 <= k < |n.conns| ==>
            && At(q.conns[k], r).started == At(n.conns[k], r).started
            && At(q.conns[k], r).closed == (At(n.conns[k], r).closed || (Mapped(n, s) == Some(k) && r == s)))
  {
    hide Tidy, Act, CanAct, Fits, At;
    if Mapped(n, s).Some? {
      MappedIsUp(n, s);
      var c := n.conns[Mapped(n, s).value];
      assert CanAct(c, s, Local(Event.Close)) by { ClosingIsPossible(c, s); }
      assert At(c, s).started by { UpIsStarted(c, s); }
      LocalEnds(c, s, Event.Close, r);
    }
  }

  lemma {:induction false} StartEnds(c: Conn, s: Side, r: Side)
    requires Tidy(c) && !At(c, s).started
    ensures var d := StartEnd(c, s);
      && Tidy(d) && At(d, r).started == (At(c, r).started || r == s) && At(d, r).closed == At(c, r).closed
  {
    hide ConnInv;
    assert CanAct(c, s, Local(Start));
    LocalEnds(c, s, Start, r);
  }

  lemma RegisterMaps(n: Net, s: Side, j: nat, r: Side)
    requires j < |n.conns|
    ensures Mapped(RegisterAt(n, s, j), r) == if r == s then Some(j) else Mapped(n, r)
  {
    hide Act, StartEnd;
  }

  lemma {:induction false} EntryMove(n: Net, s: Side, j: nat, r: Side)
    requires NodesInv(n) && j < |n.conns| && !At(n.conns[j], s).started
    ensures var q := RegisterAt(n, s, j);
      AllTidy(q) && EndsAfter(n, q, r, if r == s then Some(j) else None, if r == s then Mapped(n, s) else None)
  {
    hide Tidy, StartEnd, CloseMapped, At, Mapped;
    CloseMove(n, s, r);
    CloseMove(n, s, s);
    StartEnds(CloseMapped(n, s).conns[j], s, r);
    RegisterMaps(n, s, j, r);
  }

  lemma {:induction false} EntryInv(n: Net, s: Side, j: nat)
    requires NodesInv(n) && j < |n.conns| && !At(n.conns[j], s).started
    ensures NodesInv(RegisterAt(n, s, j))
  {
    hide Tidy, Fits, RegisterAt, EndsAfter;
    var q := RegisterAt(n, s, j);
    EntryMove(n, s, j, A);
    EntryMove(n, s, j, B);
    EndsFit(n, q, A, if A == s then Some(j) else None, if A == s then Mapped(n, s) else None);
    EndsFit(n, q, B, if B == s then Some(j) else None, if B == s then Mapped(n, s) else None);
  }

  lemma {:induction false} RegisterMove(n: Net, m: Move, r: Side)
    requires NodesInv(n) && MoveEnabled(n, m) && m.Register?
    ensures AllTidy(Make(n, m))
    ensures EndsAfter(n, Make(n, m), r, if r == m.s then Some(m.j) else None, Downs(n, m, r))
  {
    hide NodesInv, AllTidy, RegisterAt, EndsAfter, SendFrom, At, Mapped;
    var q := RegisterAt(n, m.s, m.j);
    EntryMove(n, m.s, m.j, r);
    EntryInv(n, m.s, m.j);
    if m.hello.Some? {
      SendMove(q, m.s, MakePacket(HANDSHAKE, m.hello.value), r);
      TwoChanges(n, q, Make(n, m), r, if r == m.s then Some(m.j) else None, Downs(n, m, r));
    }
  }

  /** Every move keeps the invariant. At either node it starts at most the end it
      registers and brings down at most one end; nothing else comes up or goes
      down, and the table follows. */
  lemma {:induction false} MoveKeeps(n: Net, m: Move)
    requires NodesInv(n) && MoveEnabled(n, m)
    ensures NodesInv(Make(n, m))
    ensures forall r: Side ::
      EndsAfter(n, Make(n, m), r, if m.Register? && m.s == r then Some(m.j) else None, Downs(n, m, r))
  {
    hide AllTidy, Fits, Quiescence.Apply, StepEnabled, RegisterAt, SendFrom, EndsAfter, DownBy, Greet;
    var q := Make(n, m);
    forall r: Side
      ensures AllTidy(q) && Fits(q, r)
      ensures EndsAfter(n, q, r, if m.Register? && m.s == r then Some(m.j) else None, Downs(n, m, r))
    {
      match m {
        case Run(t) => StepMove(n, t, r);
        case Register(s, j, hello) => RegisterMove(n, m, r);
        case Say(s, p) => SendMove(n, s, p, r);
      }
      EndsFit(n, q, r, if m.Register? && m.s == r then Some(m.j) else None, Downs(n, m, r));
    }
    assert Fits(q, A) && Fits(q, B);
  }

  /** The same for one end. */
  lemma {:induction false} MoveEnd(n: Net, m: Move, k: nat, r: Side)
    requires NodesInv(n) && MoveEnabled(n, m) && k < |n.conns|
    ensures var q := Make(n, m);
      && |q.conns| == |n.conns|
      && At(q.conns[k], r).started == (At(n.conns[k], r).started || Registers(m, r, k))
      && At(q.conns[k], r).closed == (At(n.conns[k], r).closed || Downs(n, m, r) == Some(k))
  {
    hide NodesInv, MoveEnabled, Make, Downs, At;
    MoveKeeps(n, m);
    assert EndsAfter(n, Make(n, m), r, if m.Register? && m.s == r then Some(m.j) else None, Downs(n, m, r));
  }

  lemma {:induction false} MoveMaps(n: Net, m: Move, r: Side)
    requires NodesInv(n) && MoveEnabled(n, m)
    ensures var q := Make(n, m);
      && NodesInv(q) && |q.conns| == |n.conns|
      && Mapped(q, r) ==
           (if m.Register? && m.s == r then Some(m.j)
            else if Downs(n, m, r) != None && Mapped(n, r) == Downs(n, m, r) then None else Mapped(n, r))
  {
    hide NodesInv, MoveEnabled, Make, Downs, At, Mapped;
    MoveKeeps(n, m);
    assert EndsAfter(n, Make(n, m), r, if m.Register? && m.s == r then Some(m.j) else None, Downs(n, m, r));
  }

  lemma {:induction false} MovesKeep(n: Net, ms: seq<Move>)
    requires NodesInv(n) && Makes(n, ms)
    ensures NodesInv(Made(n, ms)) && |Made(n, ms).conns| == |n.conns|
    decreases |ms|
  {
    hide NodesInv, MoveEnabled, Make;
    if ms != [] {
      MoveMaps(n, ms[0], A);
      MovesKeep(Make(n, ms[0]), ms[1..]);
    }
  }

  // ----- registrations in a run ---------------------------------------------

  /** The connection a node registers last, if it registers any. */
  function LastRegistered(ms: seq<Move>, s: Side): Option<nat> {
    if ms == [] then None
    else if LastRegistered(ms[1..], s) != None then LastRegistered(ms[1..], s)
    else if ms[0].Register? && ms[0].s == s then Some(ms[0].j)
    else None
  }

  /** What a node has mapped in the end is what it registered last. */
  lemma {:induction false} MappedIsLast(n: Net, ms: seq<Move>, s: Side)
    requires NodesInv(n) && Makes(n, ms)
    ensures var f := Mapped(Made(n, ms), s);
      f != None ==> f == if LastRegistered(ms, s) == None then Mapped(n, s) else LastRegistered(ms, s)
    decreases |ms|
  {
    hide NodesInv, MoveEnabled, Make, Downs;
    if ms != [] {
      MoveMaps(n, ms[0], s);
      MappedIsLast(Make(n, ms[0]), ms[1..], s);
    }
  }

  /** A connection is registered at a node at most once. */
  lemma {:induction false} NotTwice(n: Net, ms: seq<Move>, j: nat, s: Side)
    requires NodesInv(n) && Makes(n, ms) && j < |n.conns| && At(n.conns[j], s).started
    ensures LastRegistered(ms, s) != Some(j)
    decreases |ms|
  {
    hide NodesInv, Make, Downs;
    if ms != [] {
      MoveMaps(n, ms[0], s);
      MoveEnd(n, ms[0], j, s);
      NotTwice(Make(n, ms[0]), ms[1..], j, s);
    }
  }

  /** A run of steps alone. */
  function AsMoves(ts: seq<Step>): (ms: seq<Move>)
    ensures |ms| == |ts| && forall i :: 0 <= i < |ts| ==> ms[i] == Run(ts[i])
  {
    if ts == [] then [] else [Run(ts[0])] + AsMoves(ts[1..])
  }

  lemma {:induction false} AsMovesRun(n: Net, ts: seq<Step>)
    requires Runs(n, ts)
    ensures Makes(n, AsMoves(ts)) && Made(n, AsMoves(ts)) == Final(n, ts)
    ensures LastRegistered(AsMoves(ts), A) == None && LastRegistered(AsMoves(ts), B) == None
    decreases |ts|
  {
    hide StepEnabled, Quiescence.Apply;
    if ts != [] {
      AsMovesRun(Quiescence.Apply(n, ts[0]), ts[1..]);
      assert AsMoves(ts)[1..] == AsMoves(ts[1..]);
    }
  }
}
