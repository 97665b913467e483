/** Which packets a connection can be trusted with: the condition under which it
    is a FIFO queue in every run, and for every packet list a run that shows it. */
module FifoLaw {
  import opened Protocol
  import opened Frames
  import opened SessionModel
  import opened SessionRuns
  import opened Delivery
  import opened ReplyPolicy
  import opened Quiescence

  // ----- traces -------------------------------------------------------------

  lemma {:induction false} TraceAppend(c: Conn, t: Trace, u: Trace)
    requires Possible(c, t) && Possible(Outcome(c, t), u)
    ensures Possible(c, t + u) && Outcome(c, t + u) == Outcome(Outcome(c, t), u)
    decreases |t|
  {
    hide CanAct, Act;
    if t == [] {
      assert t + u == u;
    } else {
      TraceAppend(Act(c, t[0].0, t[0].1), t[1..], u);
      assert (t + u)[1..] == t[1..] + u;
    }
  }

  lemma {:induction false} InputsAppend(t: Trace, u: Trace, s: Side)
    ensures Inputs(t + u, s) == Inputs(t, s) + Inputs(u, s)
  {
    hide SentBy;
    if t == [] {
      assert t + u == u && [] + Inputs(u, s) == Inputs(u, s);
    } else {
      InputsAppend(t[1..], u, s);
      assert (t + u)[0] == t[0] && (t + u)[1..] == t[1..] + u;
      Associative(if t[0].0 == s && t[0].1.Local? then SentBy(t[0].1.e) else [], Inputs(t[1..], s), Inputs(u, s));
    }
  }

  lemma {:induction false} StaysStarted(c: Conn, t: Trace)
    requires Possible(c, t)
    ensures (c.a.started ==> Outcome(c, t).a.started) && (c.b.started ==> Outcome(c, t).b.started)
    decreases |t|
  {
    hide CanAct, Act;
    if t != [] {
      ActKeepsStarted(c, t[0].0, t[0].1);
      StaysStarted(Act(c, t[0].0, t[0].1), t[1..]);
    }
  }

  lemma ActKeepsStarted(c: Conn, s: Side, x: Action)
    requires CanAct(c, s, x)
    ensures (c.a.started ==> Act(c, s, x).a.started) && (c.b.started ==> Act(c, s, x).b.started)
  {
    hide Encode, HandleRead;
    if x.Local? && x.e.ReadDone? {
      ReadDoneFrame(At(c, s), x.e.i);
    }
  }

  // ----- a clean run for any packets ----------------------------------------

  const STARTS: Trace := [(A, Local(Start)), (B, Local(Start))]

  function Sends(ps: seq<Packet>, s: Side): Trace {
    if ps == [] then [] else [(s, Local(SendPacket(ps[0])))] + Sends(ps[1..], s)
  }

  lemma {:induction false} SendsArePossible(c: Conn, ps: seq<Packet>, s: Side)
    ensures Possible(c, Sends(ps, s)) && NoFailures(Sends(ps, s))
    ensures Inputs(Sends(ps, s), s) == ps && Inputs(Sends(ps, s), Other(s)) == []
    decreases |ps|
  {
    hide Act;
    if ps != [] {
      var x := Local(SendPacket(ps[0]));
      assert CanAct(c, s, x);
      SendsArePossible(Act(c, s, x), ps[1..], s);
      assert Sends(ps, s)[1..] == Sends(ps[1..], s);
    }
  }

  lemma StartsArePossible()
    ensures Possible(Opened(), STARTS) && NoFailures(STARTS)
    ensures Inputs(STARTS, A) == [] && Inputs(STARTS, B) == []
    ensures Outcome(Opened(), STARTS).a.started && Outcome(Opened(), STARTS).b.started
  {
    assert STARTS[1..] == [(B, Local(Start))] && STARTS[1..][1..] == [];
    var c := Act(Opened(), A, Local(Start));
    assert Possible(c, STARTS[1..]);
  }

  /** The same steps as actions of the one connection of a system without tables. */
  function ActionsOf(ts: seq<Step>): Trace {
    if ts == [] || ts[0].Evict? then [] else [(ts[0].s, ActionOf(ts[0]))] + ActionsOf(ts[1..])
  }

  function Alone(c: Conn): Net {
    Net([c], None, None)
  }

  lemma AloneStep(c: Conn, t: Step)
    requires StepEnabled(Alone(c), t) && IsProgress(t)
    ensures var x := ActionOf(t);
      CanAct(c, t.s, x) && Quiescence.Apply(Alone(c), t) == Alone(Act(c, t.s, x))
  {
    hide CanAct, Act, AboutToDeliver, Reply;
    assert Alone(c).conns[0] == c;
  }

  lemma {:induction false} AloneRun(c: Conn, ts: seq<Step>)
    requires Runs(Alone(c), ts) && (forall t <- ts :: IsProgress(t))
    ensures Possible(c, ActionsOf(ts)) && Final(Alone(c), ts) == Alone(Outcome(c, ActionsOf(ts)))
    ensures NoFailures(ActionsOf(ts)) && Inputs(ActionsOf(ts), A) == [] && Inputs(ActionsOf(ts), B) == []
    decreases |ts|
  {
    hide StepEnabled, Quiescence.Apply, CanAct, Act;
    if ts != [] {
      assert ts[0] in ts;
      var t := ts[0];
      var x := ActionOf(t);
      AloneStep(c, t);
      AloneRun(Act(c, t.s, x), ts[1..]);
      NotAnInput(Alone(c), t);
      assert ActionsOf(ts)[1..] == ActionsOf(ts[1..]);
    }
  }

  lemma NotAnInput(n: Net, t: Step)
    requires StepEnabled(n, t) && IsProgress(t)
    ensures var x := ActionOf(t);
      !IsFailure(x) && (x.Local? ==> SentBy(x.e) == [])
  {
    hide CanAct;
  }

  /** A trace without failures in which side s sends these packets and the other side nothing. */
  predicate Clean(c: Conn, t: Trace, s: Side, ps: seq<Packet>) {
    Possible(c, t) && NoFailures(t) && Inputs(t, s) == ps && Inputs(t, Other(s)) == []
  }

  predicate BothStarted(c: Conn) {
    c.a.started && c.b.started
  }

  lemma {:induction false} CleanAppend(c: Conn, t: Trace, u: Trace, s: Side, ps: seq<Packet>, qs: seq<Packet>)
    requires Clean(c, t, s, ps) && Clean(Outcome(c, t), u, s, qs)
    ensures Clean(c, t + u, s, ps + qs) && Outcome(c, t + u) == Outcome(Outcome(c, t), u)
    ensures BothStarted(Outcome(c, t)) ==> BothStarted(Outcome(c, t + u))
  {
    hide CanAct, Act, Inputs, Possible, Outcome;
    TraceAppend(c, t, u);
    InputsAppend(t, u, s);
    InputsAppend(t, u, Other(s));
    StaysStarted(Outcome(c, t), u);
  }

  lemma {:induction false} AllSent(ps: seq<Packet>, s: Side)
    ensures Clean(Opened(), STARTS + Sends(ps, s), s, ps)
    ensures BothStarted(Outcome(Opened(), STARTS + Sends(ps, s)))
  {
    hide CanAct, Act, Possible, Outcome, NoFailures, Inputs, Sends;
    StartsArePossible();
    SendsArePossible(Outcome(Opened(), STARTS), ps, s);
    CleanAppend(Opened(), STARTS, Sends(ps, s), s, [], ps);
    assert [] + ps == ps;
  }

  /** Side s sends any packets, nothing fails, and everything comes to rest. */
  lemma {:induction false} CleanRun(ps: seq<Packet>, s: Side) returns (t: Trace)
    ensures Clean(Opened(), t, s, ps)
    ensures var c := From(Outcome(Opened(), t), s); Settled(c) && BothStarted(c)
  {
    hide CanAct, Act, ConnInv, AtRest, Settled, Possible, Outcome, NoFailures, Inputs, Sends, ActionsOf;
    var u := STARTS + Sends(ps, s);
    AllSent(ps, s);
    var c := Outcome(Opened(), u);
    OpenedInv();
    TraceKeeps(Opened(), u);
    var ts := RunToRest(Alone(c));
    AloneRun(c, ts);
    t := u + ActionsOf(ts);
    CleanAppend(Opened(), u, ActionsOf(ts), s, ps, []);
    assert ps + [] == ps;
    assert Final(Alone(c), ts).conns[0] == Outcome(Opened(), t);
    RestIsSettled(Final(Alone(c), ts), 0);
  }

  /** A sender that is sent nothing does not close. */
  lemma SenderStaysOpen(t: Trace, s: Side)
    requires Possible(Opened(), t) && NoFailures(t) && Inputs(t, Other(s)) == []
    ensures !From(Outcome(Opened(), t), s).a.closed
  {
    hide Possible, Outcome, ConnInv, NoFailures;
    var c := From(Outcome(Opened(), t), s);
    OpenedInv();
    TraceKeeps(Opened(), t);
    TraceSends(Opened(), t);
    ClosedMeansRefused(Opened(), t);
    SwapKeeps(Outcome(Opened(), t));
    SwapKeeps(c);
    assert c.b.sent == [];
    if c.a.closed {
      RefusedHasParsedAll(c.Swap());
      assert false;
    }
  }

  // ----- the law ------------------------------------------------------------

  /** A connection is a FIFO queue for these packets, in every run that sends
      them, if and only if the first one that is not valid, if any, is one the
      receiver refuses. */
  lemma FifoExactly(ps: seq<Packet>, s: Side)
    ensures FirstBadIsRefused(ps) <==>
      forall t: Trace :: Possible(Opened(), t) && Inputs(t, s) == ps ==>
        IsFifo(ps, From(Outcome(Opened(), t), s).b.delivered)
  {
    hide Possible, Outcome, FirstBadIsRefused, IsFifo, Settled, NoFailures;
    forall t: Trace | FirstBadIsRefused(ps) && Possible(Opened(), t) && Inputs(t, s) == ps
      ensures IsFifo(ps, From(Outcome(Opened(), t), s).b.delivered)
    {
      FifoRefinement(t);
    }
    if !FirstBadIsRefused(ps) {
      var t := CleanRun(ps, s);
      SenderStaysOpen(t, s);
      ExactDelivery(t, s);
    }
  }
}
