/** Requests and replies between two nodes: every packet that calls for an
    answer gets exactly one, in order, and the answer arrives. */
module Answers {
  import opened Protocol
  import opened Frames
  import opened SessionModel
  import opened SessionRuns
  import opened Delivery
  import opened ReplyPolicy
  import opened ReplyDebt
  import opened Quiescence
  import opened Nodes

  function ReplyList(p: Packet): seq<Packet> {
    if Reply(p).Some? then [Reply(p).value] else []
  }

  /** The replies these packets call for, in order. */
  function RepliesTo(ps: seq<Packet>): seq<Packet> {
    if ps == [] then [] else ReplyList(ps[0]) + RepliesTo(ps[1..])
  }

  lemma {:induction false} RepliesAppend(ps: seq<Packet>, qs: seq<Packet>)
    ensures RepliesTo(ps + qs) == RepliesTo(ps) + RepliesTo(qs)
  {
    hide ReplyList;
    if ps == [] {
      assert ps + qs == qs;
      assert [] + RepliesTo(qs) == RepliesTo(qs);
    } else {
      RepliesAppend(ps[1..], qs);
      assert (ps + qs)[0] == ps[0] && (ps + qs)[1..] == ps[1..] + qs;
      Associative(ReplyList(ps[0]), RepliesTo(ps[1..]), RepliesTo(qs));
    }
  }

  /** Replies call for no replies ... */
  lemma {:induction false} RepliesCallForNone(ps: seq<Packet>)
    ensures RepliesTo(RepliesTo(ps)) == []
  {
    if ps != [] {
      RepliesCallForNone(ps[1..]);
      if Reply(ps[0]).None? {
        assert RepliesTo(ps) == RepliesTo(ps[1..]);
      } else {
        var r := Reply(ps[0]).value;
        assert RepliesTo([r]) == [] + RepliesTo([]);
        RepliesAppend([r], RepliesTo(ps[1..]));
      }
    }
  }

  /** ... and what a packet calls for does not depend on its length field. */
  lemma {:induction false} RepliesToNormalised(ps: seq<Packet>)
    ensures RepliesTo(NormaliseAll(ps)) == RepliesTo(ps)
  {
    if ps != [] {
      RepliesToNormalised(ps[1..]);
      assert NormaliseAll(ps)[1..] == NormaliseAll(ps[1..]);
    }
  }

  lemma {:induction false} RepliesAreValid(ps: seq<Packet>)
    ensures forall r <- RepliesTo(ps) :: Valid(r)
  {
    hide Reply, Valid, IsReply, ReplyCost;
    if ps != [] {
      RepliesAreValid(ps[1..]);
      if Reply(ps[0]).Some? {
        RepliesEnd(ps[0]);
      }
    }
  }

  /** The packets among these that a node has to answer: pings and text messages. */
  function Requests(ps: seq<Packet>): seq<Packet> {
    if ps == [] then []
    else (if ps[0].header.kind == PING || ps[0].header.kind == MSG_TEXT then [ps[0]] else []) + Requests(ps[1..])
  }

  /** There is exactly one reply per request, in order: a pong to a ping, a
      receipt to a text message. */
  lemma {:induction false} RepliesAnswerRequests(ps: seq<Packet>)
    ensures |RepliesTo(ps)| == |Requests(ps)|
    ensures forall i :: 0 <= i < |Requests(ps)| ==>
      RepliesTo(ps)[i] ==
        if Requests(ps)[i].header.kind == PING then MakePacket(PONG, []) else MakePacket(MSG_RECEIPT, DELIVERED)
  {
    if ps != [] {
      RepliesAnswerRequests(ps[1..]);
    }
  }

  // ----- one move -----------------------------------------------------------

  /** Bytes that move, handlers that run and operations that fail send nothing
      by themselves. */
  lemma ActSendsNothing(c: Conn, s: Side, x: Action, r: Side)
    requires CanAct(c, s, x) && IsStepAction(x)
    ensures At(Act(c, s, x), r).sent == At(c, r).sent
  {
    hide CanAct, Act;
    ActSends(c, s, x);
    assert At(c, r).sent + [] == At(c, r).sent;
  }

  /** A handler delivers the packet whose bytes were complete; nothing else delivers. */
  lemma {:induction false} StepDelivered(s: Session, e: SessionModel.Event)
    requires ReaderInv(s) && Enabled(s, e)
    ensures SessionModel.Apply(s, e).delivered == s.delivered + if e.ReadDone? then AboutToDeliver(s) else []
  {
    hide AboutToDeliver, HandleRead, Encode, ReaderInv;
    assert s.delivered + [] == s.delivered;
    if e.ReadDone? {
      ReadDoneMovesNoByte(s, e.i);
    }
  }

  function EventOf(c: Conn, x: Action): SessionModel.Event
    requires EnabledAtA(c, x)
  {
    match x
    case Local(e) => e
    case Push(i, k) => BytesTaken(i, k)
    case Pull(i, k) => BytesPlaced(i, c.ba[..k])
  }

  lemma ActIsEvent(c: Conn, x: Action)
    requires EnabledAtA(c, x)
    ensures Enabled(c.a, EventOf(c, x))
    ensures ApplyAtA(c, x).a == SessionModel.Apply(c.a, EventOf(c, x)) && ApplyAtA(c, x).b == c.b
  {
  }

  predicate IsHandling(x: Action) {
    x.Local? && x.e.ReadDone?
  }

  lemma {:induction false} ActDelivers(c: Conn, s: Side, x: Action, r: Side)
    requires ConnInv(c) && CanAct(c, s, x)
    ensures At(Act(c, s, x), r).delivered ==
      At(c, r).delivered + if r == s && IsHandling(x) then AboutToDeliver(At(c, s)) else []
  {
    hide Inv, AboutToDeliver, SessionModel.Apply, Enabled, ApplyAtA, EnabledAtA;
    var w := From(c, s);
    assert At(c, r).delivered + [] == At(c, r).delivered;
    ActIsEvent(w, x);
    InvParts(w.a) by { ConnParts(c); }
    StepDelivered(w.a, EventOf(w, x));
  }

  /** Sending through the table adds the packet to the mapped, open connection only. */
  lemma SendFromAdds(n: Net, s: Side, p: Packet, r: Side, j: nat)
    requires j < |n.conns|
    ensures var m := SendFrom(n, s, p); var me := At(n.conns[j], r);
      && |m.conns| == |n.conns|
      && At(m.conns[j], r).delivered == me.delivered
      && At(m.conns[j], r).sent == me.sent + (if r == s && Mapped(n, s) == Some(j) && !me.closed then [p] else [])
      && (me.closed || !(r == s && Mapped(n, s) == Some(j)) ==> At(m.conns[j], r) == me)
  {
    hide Encode;
    assert At(n.conns[j], r).sent + [] == At(n.conns[j], r).sent;
  }

  /** Answering adds the reply to the mapped connection, if that is open. */
  lemma RespondAdds(n: Net, s: Side, ps: seq<Packet>, r: Side, j: nat)
    requires j < |n.conns| && |ps| <= 1
    ensures var m := Respond(n, s, ps); var me := At(n.conns[j], r);
      && |m.conns| == |n.conns|
      && At(m.conns[j], r).delivered == me.delivered
      && At(m.conns[j], r).sent ==
           me.sent + (if r == s && Mapped(n, s) == Some(j) && !me.closed then RepliesTo(ps) else [])
      && (me.closed || !(r == s && Mapped(n, s) == Some(j)) ==> At(m.conns[j], r) == me)
  {
    hide SendFrom, Reply, At, Mapped;
    var me := At(n.conns[j], r);
    assert me.sent + [] == me.sent;
    if ps != [] {
      assert ps[1..] == [] && RepliesTo(ps) == ReplyList(ps[0]) + [];
      if Reply(ps[0]).Some? {
        SendFromAdds(n, s, Reply(ps[0]).value, r, j);
      }
    }
  }

  lemma ActOnParts(n: Net, s: Side, j: nat, x: Action, k: nat)
    requires j < |n.conns| && CanAct(n.conns[j], s, x) && k < |n.conns|
    ensures var m := ActOn(n, s, j, x);
      |m.conns| == |n.conns| && m.conns[k] == if k == j then Act(n.conns[j], s, x) else n.conns[k]
  {
    hide Act, CanAct;
  }

  lemma EvictParts(n: Net, s: Side, k: nat)
    requires StepEnabled(n, Evict(s)) && k < |n.conns|
    ensures var m := Quiescence.Apply(n, Evict(s));
      && |m.conns| == |n.conns|
      && m.conns[k] == if Mapped(n, s) == Some(k) then Act(n.conns[k], s, Local(Event.Close)) else n.conns[k]
  {
    hide Act;
  }

  lemma CloseParts(c: Conn, s: Side, r: Side)
    ensures var me, d := At(c, r), At(Act(c, s, Local(Event.Close)), r);
      d == if r == s then CloseSession(me) else me
  {
  }

  lemma StartParts(c: Conn, s: Side, r: Side)
    ensures var me, d := At(c, r), At(StartEnd(c, s), r);
      d.sent == me.sent && d.delivered == me.delivered
  {
  }

  /** Registering sends and delivers nothing. */
  lemma {:induction false} RegisterParts(n: Net, s: Side, j: nat, r: Side, k: nat)
    requires j < |n.conns| && k < |n.conns|
    ensures var m := RegisterAt(n, s, j);
      && |m.conns| == |n.conns|
      && At(m.conns[k], r).sent == At(n.conns[k], r).sent
      && At(m.conns[k], r).delivered == At(n.conns[k], r).delivered
  {
    hide Act, StartEnd, At, CanAct;
    var c := CloseMapped(n, s).conns[k];
    CloseParts(n.conns[k], s, r);
    assert At(c, r).sent == At(n.conns[k], r).sent && At(c, r).delivered == At(n.conns[k], r).delivered;
    StartParts(c, s, r);
  }

  /** The packets a move hands out on side s, on any connection or only on one. */
  function HandedBy(n: Net, m: Move, s: Side, only: Option<nat>): seq<Packet>
    requires MoveEnabled(n, m)
  {
    if m.Run? && m.t.Handle? && m.t.s == s && (only == None || only == Some(m.t.j)) then HandledBy(n, m.t) else []
  }

  /** The handshake of a registration. */
  function Greeting(m: Move): seq<Packet> {
    if m.Register? && m.hello.Some? then [MakePacket(HANDSHAKE, m.hello.value)] else []
  }

  /** The packets node s wants to send in a move: replies to what is handed out
      to it, on whichever connection, what its client says, and its handshake. */
  function Passed(n: Net, m: Move, s: Side): seq<Packet>
    requires MoveEnabled(n, m)
  {
    if m.Run? then RepliesTo(HandedBy(n, m, s, None))
    else if m.s != s then []
    else if m.Say? then [m.p] else Greeting(m)
  }

  /** The connection a node's packets go out on in a move: a new one as soon as
      it is registered, otherwise the one that is mapped. */
  function Target(n: Net, m: Move, s: Side): Option<nat> {
    if m.Register? && m.s == s then Some(m.j) else Mapped(n, s)
  }

  /** A handler that refuses a header hands out nothing. */
  lemma RefusingHandsOutNothing(n: Net, t: Step)
    requires NodesInv(n) && StepEnabled(n, t) && t.Handle? && Errs(n.conns[t.j], t.s, ActionOf(t))
    ensures HandledBy(n, t) == []
  {
    hide DeserializeHeader;
    EndIsMapped(n, t.s, t.j);
    var me := At(n.conns[t.j], t.s);
    assert |me.pendingReads| <= 1 by { ConnParts(n.conns[t.j]); ReaderShape(me); }
  }

  /** Registering connection k at node r: r's handshake goes out on it, and
      nothing else is sent or delivered. */
  lemma {:induction false} RegisterSends(n: Net, m: Move, s: Side, j: nat)
    requires NodesInv(n) && MoveEnabled(n, m) && m.Register? && j < |n.conns|
    ensures var q := Make(n, m);
      && |q.conns| == |n.conns|
      && At(q.conns[j], s).sent == At(n.conns[j], s).sent + (if Registers(m, s, j) then Greeting(m) else [])
  {
    hide NodesInv, RegisterAt, SendFrom, At, Mapped;
    var me := At(n.conns[j], s);
    assert me.sent + [] == me.sent;
    RegisterParts(n, m.s, m.j, s, j);
    RegisterMaps(n, m.s, m.j, s);
    RegisterMaps(n, m.s, m.j, m.s);
    var q := RegisterAt(n, m.s, m.j);
    EntryInv(n, m.s, m.j);
    if m.hello.Some? {
      MappedIsOpen(q, m.s, m.j);
      SendFromAdds(q, m.s, MakePacket(HANDSHAKE, m.hello.value), s, j);
    }
  }

  /** What a node passes to send in a move goes out on the connection mapped
      before it, or just registered, and on no other; if there is none it is
      dropped. */
  lemma {:induction false} MoveSends(n: Net, m: Move, s: Side, j: nat)
    requires NodesInv(n) && MoveEnabled(n, m) && j < |n.conns|
    ensures var q := Make(n, m);
      && |q.conns| == |n.conns|
      && At(q.conns[j], s).sent == At(n.conns[j], s).sent + if Target(n, m, s) == Some(j) then Passed(n, m, s) else []
  {
    hide Act, CanAct, AboutToDeliver, Respond, ActOn, SendFrom, RegisterAt, NodesInv, Mapped, At, Errs, Greet;
    var me := At(n.conns[j], s);
    assert me.sent + [] == me.sent;
    EndIsMapped(n, s, j);
    match m {
      case Run(t) =>
        if t.Evict? {
          EvictParts(n, t.s, j);
          CloseParts(n.conns[j], t.s, s);
        } else {
          StepSends(n, t, s, j);
        }
      case Register(r, k, hello) => RegisterSends(n, m, s, j);
      case Say(r, p) => SendFromAdds(n, r, p, s, j);
    }
  }

  lemma {:induction false} StepSends(n: Net, t: Step, s: Side, j: nat)
    requires NodesInv(n) && StepEnabled(n, t) && j < |n.conns| && !t.Evict?
    ensures var q := Quiescence.Apply(n, t);
      && |q.conns| == |n.conns|
      && At(q.conns[j], s).sent == At(n.conns[j], s).sent + if Mapped(n, s) == Some(j) then Passed(n, Run(t), s) else []
  {
    hide Act, CanAct, AboutToDeliver, Respond, ActOn, AllTidy, Fits, Mapped, At, Errs;
    var me := At(n.conns[j], s);
    assert me.sent + [] == me.sent;
    StepParts(n, t);
    var x := ActionOf(t);
    var k := ActOn(n, t.s, t.j, x);
    ActOnParts(n, t.s, t.j, x, j);
    ActSendsNothing(n.conns[t.j], t.s, x, s);
    RespondAdds(k, t.s, HandledBy(n, t), s, j);
    assert Passed(n, Run(t), s) == RepliesTo(HandedBy(n, Run(t), s, None));
    if t.Handle? && t.s == s {
      if Errs(n.conns[t.j], s, x) {
        RefusingHandsOutNothing(n, t);
      } else {
        ActOnMove(n, s, t.j, x, s);
        ActedInv(n, s, t.j, x);
        MappedIsOpen(k, s, j);
      }
    }
  }

  lemma MappedIsOpen(n: Net, s: Side, j: nat)
    requires NodesInv(n) && j < |n.conns|
    ensures Mapped(n, s) == Some(j) ==> !At(n.conns[j], s).closed
  {
    EndIsMapped(n, s, j);
  }

  /** What a move hands out on a connection is appended to its delivered packets. */
  lemma {:induction false} MoveDelivers(n: Net, m: Move, s: Side, j: nat)
    requires NetInv(n) && MoveEnabled(n, m) && j < |n.conns|
    ensures var q := Make(n, m);
      && |q.conns| == |n.conns|
      && At(q.conns[j], s).delivered == At(n.conns[j], s).delivered + HandedBy(n, m, s, Some(j))
  {
    hide Act, CanAct, AboutToDeliver, Respond, ActOn, SendFrom, RegisterAt, Mapped, ConnInv, At, MakePacket;
    assert At(n.conns[j], s).delivered + [] == At(n.conns[j], s).delivered;
    match m {
      case Run(t) =>
        if t.Evict? {
          EvictParts(n, t.s, j);
          CloseParts(n.conns[j], t.s, s);
        } else {
          StepParts(n, t);
          var x := ActionOf(t);
          ActOnParts(n, t.s, t.j, x, j);
          ActDelivers(n.conns[t.j], t.s, x, s);
          RespondAdds(ActOn(n, t.s, t.j, x), t.s, HandledBy(n, t), s, j);
        }
      case Register(r, k, hello) =>
        RegisterParts(n, r, k, s, j);
        if hello.Some? {
          SendFromAdds(RegisterAt(n, r, k), r, MakePacket(HANDSHAKE, hello.value), s, j);
        }
      case Say(r, p) => SendFromAdds(n, r, p, s, j);
    }
  }

  lemma {:induction false} MoveKeepsNet(n: Net, m: Move)
    requires NetInv(n) && MoveEnabled(n, m)
    ensures NetInv(Make(n, m)) && |Make(n, m).conns| == |n.conns|
  {
    hide NetInv, Quiescence.Apply, Rank, SendFrom, RegisterAt, MakePacket;
    match m {
      case Run(t) =>
        StepWorks(n, t);
        SameNumber(n, t);
      case Register(s, j, hello) =>
        RegisterKeepsNet(n, s, j);
        if hello.Some? {
          SendKeepsNet(RegisterAt(n, s, j), s, MakePacket(HANDSHAKE, hello.value));
        }
      case Say(s, p) => SendKeepsNet(n, s, p);
    }
  }

  lemma {:induction false} SendKeepsNet(n: Net, s: Side, p: Packet)
    requires NetInv(n)
    ensures NetInv(SendFrom(n, s, p)) && |SendFrom(n, s, p).conns| == |n.conns|
  {
    hide ConnInv, Act, CanAct, At;
    if Mapped(n, s).Some? && Mapped(n, s).value < |n.conns| {
      var c := n.conns[Mapped(n, s).value];
      SendingIsPossible(c, s, p);
      ActKeeps(c, s, Local(SendPacket(p)));
    }
  }

  lemma {:induction false} RegisterKeepsNet(n: Net, s: Side, j: nat)
    requires NetInv(n) && j < |n.conns|
    ensures NetInv(RegisterAt(n, s, j)) && |RegisterAt(n, s, j).conns| == |n.conns|
  {
    hide ConnInv, Act, CanAct;
    var q := CloseMapped(n, s);
    if Mapped(n, s).Some? && Mapped(n, s).value < |n.conns| {
      var c := n.conns[Mapped(n, s).value];
      ClosingIsPossible(c, s);
      ActKeeps(c, s, Local(Event.Close));
    }
    assert ConnInv(q.conns[j]);
    if CanAct(q.conns[j], s, Local(Start)) {
      ActKeeps(q.conns[j], s, Local(Start));
    }
  }

  lemma SameNumber(n: Net, t: Step)
    requires StepEnabled(n, t)
    ensures |Quiescence.Apply(n, t).conns| == |n.conns|
  {
    hide Act, CanAct, AboutToDeliver;
  }

  // ----- whole runs ---------------------------------------------------------

  /** The packets a run hands out on side s, in order. */
  function HandedOut(n: Net, ms: seq<Move>, s: Side, only: Option<nat>): seq<Packet>
    requires Makes(n, ms)
    decreases |ms|
  {
    if ms == [] then []
    else HandedBy(n, ms[0], s, only) + HandedOut(Make(n, ms[0]), ms[1..], s, only)
  }

  /** What comes out of one connection is appended to its delivered packets, in
      every run. */
  lemma {:induction false} HandedOutIsDelivered(n: Net, ms: seq<Move>, s: Side, j: nat)
    requires NetInv(n) && Makes(n, ms) && j < |n.conns|
    ensures var f := Made(n, ms);
      && |f.conns| == |n.conns|
      && At(f.conns[j], s).delivered == At(n.conns[j], s).delivered + HandedOut(n, ms, s, Some(j))
    decreases |ms|
  {
    hide MoveEnabled, Make, HandedBy, NetInv;
    if ms == [] {
      assert At(n.conns[j], s).delivered + [] == At(n.conns[j], s).delivered;
    } else {
      MoveDelivers(n, ms[0], s, j);
      MoveKeepsNet(n, ms[0]);
      HandedOutIsDelivered(Make(n, ms[0]), ms[1..], s, j);
      Associative(At(n.conns[j], s).delivered, HandedBy(n, ms[0], s, Some(j)),
                  HandedOut(Make(n, ms[0]), ms[1..], s, Some(j)));
    }
  }

  /** The packets node s wants to send while connection j is the mapped one, its
      handshake included. */
  function PassedOn(n: Net, ms: seq<Move>, s: Side, j: nat): seq<Packet>
    requires Makes(n, ms)
    decreases |ms|
  {
    if ms == [] then []
    else (if Target(n, ms[0], s) == Some(j) then Passed(n, ms[0], s) else []) + PassedOn(Make(n, ms[0]), ms[1..], s, j)
  }

  /** Over every run of any moves, for every connection: what a node sends on it
      is, in order, what it wanted to send while the connection was mapped. */
  lemma {:induction false} SentWhileMapped(n: Net, ms: seq<Move>, s: Side, j: nat)
    requires NodesInv(n) && Makes(n, ms) && j < |n.conns|
    ensures var f := Made(n, ms);
      && |f.conns| == |n.conns|
      && At(f.conns[j], s).sent == At(n.conns[j], s).sent + PassedOn(n, ms, s, j)
    decreases |ms|
  {
    hide MoveEnabled, Make, Passed, NodesInv, Downs;
    if ms == [] {
      assert At(n.conns[j], s).sent + [] == At(n.conns[j], s).sent;
    } else {
      MoveSends(n, ms[0], s, j);
      MoveMaps(n, ms[0], s);
      SentWhileMapped(Make(n, ms[0]), ms[1..], s, j);
      Associative(At(n.conns[j], s).sent, if Target(n, ms[0], s) == Some(j) then Passed(n, ms[0], s) else [],
                  PassedOn(Make(n, ms[0]), ms[1..], s, j));
    }
  }

  /** The packets node s wants to send from its last registration on, or in the
      whole run if it registers none. */
  function PassedSince(n: Net, ms: seq<Move>, s: Side): seq<Packet>
    requires Makes(n, ms)
    decreases |ms|
  {
    if ms == [] then []
    else (if LastRegistered(ms[1..], s) == None then Passed(n, ms[0], s) else []) +
         PassedSince(Make(n, ms[0]), ms[1..], s)
  }

  /** Over every run, with registrations, failures and evictions at either node,
      any number of connections and any packets on them: on the connection that
      is mapped at its peer in the end a node has sent, since it registered it,
      its handshake and then exactly one reply to each packet handed out to it
      that calls for one, in order with what its client said. Late packets of
      connections that were closed or replaced are answered there too, and
      nothing is dropped. */
  lemma {:induction false} EveryRequestIsAnswered(n: Net, ms: seq<Move>, s: Side, j: nat)
    requires NodesInv(n) && Makes(n, ms) && j < |n.conns| && Mapped(Made(n, ms), s) == Some(j)
    ensures LastRegistered(ms, s) == if Mapped(n, s) == Some(j) then None else Some(j)
    ensures |Made(n, ms).conns| == |n.conns|
    ensures At(Made(n, ms).conns[j], s).sent == At(n.conns[j], s).sent + PassedSince(n, ms, s)
    decreases |ms|
  {
    hide MoveEnabled, Make, Passed, NodesInv, Downs;
    MappedIsLast(n, ms, s);
    if Mapped(n, s) == Some(j) {
      EndIsMapped(n, s, j);
      NotTwice(n, ms, j, s) by { UpIsStarted(n.conns[j], s); }
    }
    if ms == [] {
      assert At(n.conns[j], s).sent + [] == At(n.conns[j], s).sent;
    } else {
      var q := Make(n, ms[0]);
      MoveSends(n, ms[0], s, j);
      MoveMaps(n, ms[0], s);
      EveryRequestIsAnswered(q, ms[1..], s, j);
      Associative(At(n.conns[j], s).sent, if Target(n, ms[0], s) == Some(j) then Passed(n, ms[0], s) else [],
                  PassedSince(q, ms[1..], s));
    }
  }

  /** In a run without registrations in which the client of s is silent, that is
      the replies to everything handed out to it. */
  lemma {:induction false} PassedAreReplies(n: Net, ms: seq<Move>, s: Side)
    requires Makes(n, ms) && (forall m <- ms :: m.Run?)
    ensures PassedSince(n, ms, s) == RepliesTo(HandedOut(n, ms, s, None))
    ensures LastRegistered(ms, s) == None
    decreases |ms|
  {
    hide MoveEnabled, Make, HandedBy, RepliesTo;
    if ms == [] {
      NoReplies();
    } else {
      assert ms[0] in ms;
      var q := Make(n, ms[0]);
      PassedAreReplies(q, ms[1..], s);
      RepliesAppend(HandedBy(n, ms[0], s, None), HandedOut(q, ms[1..], s, None));
      assert RepliesTo(HandedBy(n, ms[0], s, None)) + [] == RepliesTo(HandedBy(n, ms[0], s, None));
    }
  }

  lemma NoReplies()
    ensures RepliesTo([]) == []
  {
  }

  /** Spelled out: in a run without registrations and client packets, what a node
      has newly sent on its connection is one pong per ping and one receipt per
      text message handed out to it, in that order, and nothing else. */
  lemma {:induction false} RequestsAreAnsweredInOrder(n: Net, ms: seq<Move>, s: Side, j: nat)
    requires NodesInv(n) && Makes(n, ms) && (forall m <- ms :: m.Run?)
    requires j < |n.conns| && Mapped(Made(n, ms), s) == Some(j)
    ensures |Made(n, ms).conns| == |n.conns|
    ensures var me, after := At(n.conns[j], s), At(Made(n, ms).conns[j], s);
      var asked := Requests(HandedOut(n, ms, s, None));
      && me.sent <= after.sent && |after.sent| == |me.sent| + |asked|
      && forall i :: 0 <= i < |asked| ==>
           after.sent[|me.sent| + i] ==
             if asked[i].header.kind == PING then MakePacket(PONG, []) else MakePacket(MSG_RECEIPT, DELIVERED)
  {
    hide NodesInv, Makes, Made, HandedOut, PassedSince, RepliesTo, Requests, At;
    EveryRequestIsAnswered(n, ms, s, j);
    PassedAreReplies(n, ms, s);
    RepliesAnswerRequests(HandedOut(n, ms, s, None));
  }
}
