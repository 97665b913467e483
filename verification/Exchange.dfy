/** What becomes of the packets on the way when two nodes come to rest: the
    replies to them, and to the late packets of connections that were closed. */
module Exchange {
  import opened Protocol
  import opened Frames
  import opened SessionModel
  import opened SessionRuns
  import opened Delivery
  import opened Quiescence
  import opened Nodes
  import opened Answers

  // ----- runs of steps ------------------------------------------------------

  /** The packets a run of steps hands out on side s. */
  function Out(n: Net, ts: seq<Step>, s: Side, only: Option<nat>): seq<Packet>
    requires Runs(n, ts)
  {
    AsMovesRun(n, ts);
    HandedOut(n, AsMoves(ts), s, only)
  }

  function OutBy(n: Net, t: Step, s: Side, only: Option<nat>): seq<Packet>
    requires StepEnabled(n, t)
  {
    HandedBy(n, Run(t), s, only)
  }

  lemma OutStep(n: Net, ts: seq<Step>, s: Side, only: Option<nat>)
    requires Runs(n, ts)
    ensures ts == [] ==> Out(n, ts, s, only) == []
    ensures ts != [] ==>
      Out(n, ts, s, only) == OutBy(n, ts[0], s, only) + Out(Quiescence.Apply(n, ts[0]), ts[1..], s, only)
  {
    hide StepEnabled, Quiescence.Apply, HandedBy;
    if ts != [] {
      assert AsMoves(ts)[1..] == AsMoves(ts[1..]);
    }
  }

  lemma OutIsDelivered(n: Net, ts: seq<Step>, s: Side, j: nat)
    requires NetInv(n) && Runs(n, ts) && j < |n.conns|
    ensures var f := Final(n, ts);
      && |f.conns| == |n.conns|
      && At(f.conns[j], s).delivered == At(n.conns[j], s).delivered + Out(n, ts, s, Some(j))
  {
    hide NetInv, HandedOut;
    AsMovesRun(n, ts);
    HandedOutIsDelivered(n, AsMoves(ts), s, j);
  }

  lemma OutIsAnswered(n: Net, ts: seq<Step>, s: Side, j: nat)
    requires NodesInv(n) && Runs(n, ts) && j < |n.conns| && Mapped(Final(n, ts), s) == Some(j)
    ensures |Final(n, ts).conns| == |n.conns| && Mapped(n, s) == Some(j)
    ensures At(Final(n, ts).conns[j], s).sent == At(n.conns[j], s).sent + RepliesTo(Out(n, ts, s, None))
  {
    hide NodesInv, HandedOut, PassedSince, RepliesTo;
    AsMovesRun(n, ts);
    EveryRequestIsAnswered(n, AsMoves(ts), s, j);
    PassedAreReplies(n, AsMoves(ts), s);
  }

  lemma {:induction false} StepsKeep(n: Net, ts: seq<Step>)
    requires NodesInv(n) && Runs(n, ts)
    ensures NodesInv(Final(n, ts)) && |Final(n, ts).conns| == |n.conns|
  {
    hide NodesInv;
    AsMovesRun(n, ts);
    MovesKeep(n, AsMoves(ts));
  }

  lemma StepKeeps(n: Net, t: Step)
    requires NodesInv(n) && StepEnabled(n, t)
    ensures NodesInv(Quiescence.Apply(n, t)) && |Quiescence.Apply(n, t).conns| == |n.conns|
  {
    hide NodesInv, StepEnabled, Downs;
    MoveMaps(n, Run(t), A);
  }

  // ----- packets of closed connections --------------------------------------

  /** A closed session can hand out the packet that was complete, and nothing
      that was not. */
  lemma {:induction false} ClosedKeepsTotal(s: Session, e: SessionModel.Event)
    requires ReaderInv(s) && s.closed && Enabled(s, e)
    ensures var t := SessionModel.Apply(s, e);
      t.closed && t.delivered + AboutToDeliver(t) == s.delivered + AboutToDeliver(s)
  {
    hide HandleRead, Encode, DeserializeHeader;
    ClosedStepIsQuiet(s, e);
    match e {
      case ReadDone(i) =>
        ReadDoneMovesNoByte(s, i);
        HandledReadIsEmpty(s, i);
        var t := SessionModel.Apply(s, e);
        assert t.delivered + [] == t.delivered;
      case ReadFailed(i) =>
        assert Remove(s.pendingReads, i) == [];
        IncompleteDeliversNothing(s);
      case Start =>
        IncompleteDeliversNothing(s);
        IncompleteDeliversNothing(SessionModel.Apply(s, e));
      case _ => WriterStepLeavesReader(s, e);
    }
  }

  /** What a session has delivered and still has to deliver if no byte arrives. */
  function Total(s: Session): seq<Packet> {
    s.delivered + AboutToDeliver(s)
  }

  /** An end that is down, closed or not registered yet, keeps its total. */
  lemma {:induction false} DownAct(c: Conn, s: Side, x: Action, r: Side)
    requires Tidy(c) && CanAct(c, s, x) && IsStepAction(x) && !Up(c, r)
    ensures Total(At(Act(c, s, x), r)) == Total(At(c, r))
  {
    hide Inv, AboutToDeliver;
    ActorIsStarted(c, s, x);
    if r == s && x.Local? {
      InvParts(At(c, s)) by { ConnParts(c); }
      ClosedKeepsTotal(At(c, s), x.e);
    }
  }

  lemma {:induction false} DownStep(n: Net, t: Step, s: Side, k: nat)
    requires NodesInv(n) && StepEnabled(n, t) && k < |n.conns| && !Up(n.conns[k], s)
    ensures var m := Quiescence.Apply(n, t);
      && |m.conns| == |n.conns|
      && !Up(m.conns[k], s) && Total(At(m.conns[k], s)) == Total(At(n.conns[k], s))
  {
    hide Act, CanAct, AboutToDeliver, Respond, ActOn, Mapped, Fits, Tidy, Total, At, Downs, Make;
    MoveEnd(n, Run(t), k, s);
    EndIsMapped(n, s, k);
    assert Make(n, Run(t)) == Quiescence.Apply(n, t) by { MakeRun(n, t); }
    DownStaysDown(n.conns[k], Quiescence.Apply(n, t).conns[k], s);
    if t.Evict? {
      EvictParts(n, t.s, k);
      CloseParts(n.conns[k], t.s, s);
    } else {
      StepParts(n, t);
      var x := ActionOf(t);
      var q := ActOn(n, t.s, t.j, x);
      ActOnParts(n, t.s, t.j, x, k);
      if k == t.j {
        DownAct(n.conns[k], t.s, x, s);
      }
      ActOnMove(n, t.s, t.j, x, s);
      RespondAdds(q, t.s, HandledBy(n, t), s, k);
      UnmappedStays(n, t, s, k);
    }
  }

  lemma MakeRun(n: Net, t: Step)
    requires StepEnabled(n, t)
    ensures Make(n, Run(t)) == Quiescence.Apply(n, t)
  {
  }

  lemma DownStaysDown(c: Conn, d: Conn, s: Side)
    requires !Up(c, s) && At(d, s).started == At(c, s).started && (At(c, s).closed ==> At(d, s).closed)
    ensures !Up(d, s)
  {
  }

  lemma UnmappedStays(n: Net, t: Step, s: Side, k: nat)
    requires NodesInv(n) && StepEnabled(n, t) && !t.Evict? && k < |n.conns| && Mapped(n, s) != Some(k)
    ensures t.j < |n.conns| && CanAct(n.conns[t.j], t.s, ActionOf(t))
    ensures Mapped(ActOn(n, t.s, t.j, ActionOf(t)), s) != Some(k)
  {
    hide Act, CanAct;
    StepParts(n, t);
  }

  lemma {:induction false} DownRun(n: Net, ts: seq<Step>, s: Side, k: nat)
    requires NodesInv(n) && Runs(n, ts) && k < |n.conns| && !Up(n.conns[k], s)
    ensures var m := Final(n, ts);
      && |m.conns| == |n.conns|
      && !Up(m.conns[k], s) && Total(At(m.conns[k], s)) == Total(At(n.conns[k], s))
    decreases |ts|
  {
    hide StepEnabled, Quiescence.Apply, NodesInv, Total, Up;
    if ts != [] {
      DownStep(n, ts[0], s, k);
      StepKeeps(n, ts[0]);
      DownRun(Quiescence.Apply(n, ts[0]), ts[1..], s, k);
    }
  }

  lemma NothingDueAtRest(n: Net, s: Side, k: nat)
    requires NetInv(n) && AtRest(n) && k < |n.conns|
    ensures AboutToDeliver(At(n.conns[k], s)) == []
  {
    hide AtRest, AboutToDeliver;
    var c := n.conns[k];
    RestIsSettled(n, k);
    var me := At(c, s);
    InvParts(me) by { ConnParts(c); }
    if me.pendingReads != [] && !Waiting(me) {
      CompleteIsEnabled(me);
      assert CanAct(c, s, Local(ReadDone(0)));
      assert c.Swap().Swap() == c;
      assert false by { SideSwaps(c); }
    }
    IncompleteDeliversNothing(me);
  }

  /** In a run to rest a connection that is not up at a node hands out there
      exactly the packet that was complete in it, if any. */
  lemma {:induction false} LatePacket(n: Net, ts: seq<Step>, s: Side, k: nat)
    requires NodesInv(n) && Runs(n, ts) && AtRest(Final(n, ts)) && k < |n.conns| && !Up(n.conns[k], s)
    ensures Out(n, ts, s, Some(k)) == AboutToDeliver(At(n.conns[k], s))
  {
    hide NodesInv, NetInv, AtRest, Out, AboutToDeliver, Runs, Final, Up;
    DownRun(n, ts, s, k);
    NodesAreNet(n);
    OutIsDelivered(n, ts, s, k);
    EveryRunEnds(n, ts);
    var me, after := At(n.conns[k], s), At(Final(n, ts).conns[k], s);
    NothingDueAtRest(Final(n, ts), s, k);
    assert after.delivered + [] == after.delivered;
    Cancel(me.delivered, Out(n, ts, s, Some(k)), AboutToDeliver(me));
  }

  // ----- which connection a packet came from --------------------------------

  /** The replies to what the first k connections hand out. */
  function ReplySum(n: Net, ts: seq<Step>, s: Side, k: nat): multiset<Packet>
    requires Runs(n, ts)
  {
    if k == 0 then multiset{}
    else ReplySum(n, ts, s, k - 1) + multiset(RepliesTo(Out(n, ts, s, Some(k - 1))))
  }

  function StepSum(n: Net, t: Step, s: Side, k: nat): multiset<Packet>
    requires StepEnabled(n, t)
  {
    if k == 0 then multiset{} else StepSum(n, t, s, k - 1) + multiset(RepliesTo(OutBy(n, t, s, Some(k - 1))))
  }

  lemma {:induction false} StepSumIsReply(n: Net, t: Step, s: Side, k: nat)
    requires StepEnabled(n, t)
    ensures StepSum(n, t, s, k) ==
      if t.Handle? && t.j < k then multiset(RepliesTo(OutBy(n, t, s, None))) else multiset{}
  {
    hide StepEnabled, OutBy, RepliesTo;
    if k > 0 {
      StepSumIsReply(n, t, s, k - 1);
      HandedByOne(n, t, s, k - 1);
    }
  }

  lemma HandedByOne(n: Net, t: Step, s: Side, k: nat)
    requires StepEnabled(n, t)
    ensures RepliesTo(OutBy(n, t, s, Some(k))) ==
      if t.Handle? && t.j == k then RepliesTo(OutBy(n, t, s, None)) else []
  {
    hide StepEnabled, AboutToDeliver;
    assert RepliesTo([]) == [];
  }

  lemma {:induction false} ReplySumStep(n: Net, ts: seq<Step>, s: Side, k: nat)
    requires Runs(n, ts) && ts != []
    ensures ReplySum(n, ts, s, k) ==
      StepSum(n, ts[0], s, k) + ReplySum(Quiescence.Apply(n, ts[0]), ts[1..], s, k)
  {
    hide StepEnabled, Quiescence.Apply, OutBy, Out, RepliesTo;
    if k > 0 {
      ReplySumStep(n, ts, s, k - 1);
      OutStep(n, ts, s, Some(k - 1));
      RepliesAppend(OutBy(n, ts[0], s, Some(k - 1)),
                    Out(Quiescence.Apply(n, ts[0]), ts[1..], s, Some(k - 1)));
    }
  }

  /** Whatever is handed out comes from one of the connections. */
  lemma {:induction false} RepliesByConnection(n: Net, ts: seq<Step>, s: Side)
    requires Runs(n, ts)
    ensures multiset(RepliesTo(Out(n, ts, s, None))) == ReplySum(n, ts, s, |n.conns|)
    decreases |ts|
  {
    hide StepEnabled, Quiescence.Apply, OutBy, Out, RepliesTo, ReplySum, StepSum;
    OutStep(n, ts, s, None);
    if ts == [] {
      NoReplySum(n, s, |n.conns|);
    } else {
      var m := Quiescence.Apply(n, ts[0]);
      SameNumber(n, ts[0]);
      RepliesByConnection(m, ts[1..], s);
      ReplySumStep(n, ts, s, |n.conns|);
      StepSumIsReply(n, ts[0], s, |n.conns|);
      RepliesAppend(OutBy(n, ts[0], s, None), Out(m, ts[1..], s, None));
      HandledIsInside(n, ts[0], s);
    }
  }

  lemma HandledIsInside(n: Net, t: Step, s: Side)
    requires StepEnabled(n, t)
    ensures t.Handle? ==> t.j < |n.conns|
    ensures !t.Handle? ==> RepliesTo(OutBy(n, t, s, None)) == []
  {
    hide CanAct, AboutToDeliver;
  }

  lemma {:induction false} NoReplySum(n: Net, s: Side, k: nat)
    ensures ReplySum(n, [], s, k) == multiset{} && RepliesTo([]) == []
  {
    if k > 0 {
      OutStep(n, [], s, Some(k - 1));
      NoReplySum(n, s, k - 1);
    }
  }

  /** The replies to the packets that are complete in the first k connections
      but have not been handed out, connection j apart. */
  function LateReplies(n: Net, s: Side, j: nat, k: nat): multiset<Packet>
    requires k <= |n.conns|
  {
    if k == 0 then multiset{}
    else LateReplies(n, s, j, k - 1) +
         if k - 1 == j then multiset{} else multiset(RepliesTo(AboutToDeliver(At(n.conns[k - 1], s))))
  }

  lemma {:induction false} LateRepliesSum(n: Net, ts: seq<Step>, s: Side, j: nat, k: nat)
    requires NodesInv(n) && Runs(n, ts) && AtRest(Final(n, ts)) && k <= |n.conns|
    requires forall i :: 0 <= i < |n.conns| && i != j ==> !Up(n.conns[i], s)
    ensures ReplySum(n, ts, s, k) ==
      LateReplies(n, s, j, k) + if j < k then multiset(RepliesTo(Out(n, ts, s, Some(j)))) else multiset{}
  {
    hide NodesInv, AtRest, Out, AboutToDeliver, Runs, Final, RepliesTo, At, ReplySum, LateReplies, Up;
    if k == 0 {
      assert ReplySum(n, ts, s, 0) == multiset{} == LateReplies(n, s, j, 0) by { EmptySums(n, ts, s, j); }
    } else {
      LateRepliesSum(n, ts, s, j, k - 1);
      OneMore(n, ts, s, j, k - 1);
      if k - 1 != j {
        LatePacket(n, ts, s, k - 1);
      }
    }
  }

  lemma EmptySums(n: Net, ts: seq<Step>, s: Side, j: nat)
    requires Runs(n, ts)
    ensures ReplySum(n, ts, s, 0) == multiset{} == LateReplies(n, s, j, 0)
  {
  }

  lemma OneMore(n: Net, ts: seq<Step>, s: Side, j: nat, k: nat)
    requires Runs(n, ts) && k < |n.conns|
    ensures ReplySum(n, ts, s, k + 1) ==
      ReplySum(n, ts, s, k) + multiset(RepliesTo(Out(n, ts, s, Some(k))))
    ensures LateReplies(n, s, j, k + 1) ==
      LateReplies(n, s, j, k) +
      if k == j then multiset{} else multiset(RepliesTo(AboutToDeliver(At(n.conns[k], s))))
  {
    hide Runs, Out, AboutToDeliver, RepliesTo, At;
  }

  // ----- the outcome --------------------------------------------------------

  lemma UnmappedIsDown(n: Net, s: Side, j: nat)
    requires NodesInv(n) && Mapped(n, s) == Some(j)
    ensures forall k :: 0 <= k < |n.conns| && k != j ==> !Up(n.conns[k], s)
  {
    hide Tidy;
    FitsBoth(n, s);
  }

  /** No packet that calls for a reply is still to be handed out on side s by
      another connection. */
  predicate SilentElsewhere(n: Net, s: Side, j: nat) {
    forall k :: 0 <= k < |n.conns| && k != j ==> RepliesTo(AboutToDeliver(At(n.conns[k], s))) == []
  }

  lemma {:induction false} NoLateReplies(n: Net, s: Side, j: nat, k: nat)
    requires k <= |n.conns| && LateReplies(n, s, j, k) == multiset{}
    ensures forall i :: 0 <= i < k && i != j ==> RepliesTo(AboutToDeliver(At(n.conns[i], s))) == []
  {
    hide AboutToDeliver, RepliesTo, At;
    if k > 0 {
      assert LateReplies(n, s, j, k - 1) <= LateReplies(n, s, j, k);
      NoLateReplies(n, s, j, k - 1);
      if k - 1 != j {
        var ps := RepliesTo(AboutToDeliver(At(n.conns[k - 1], s)));
        assert multiset(ps) <= LateReplies(n, s, j, k);
        assert |multiset(ps)| == |ps| == 0;
      }
    }
  }

  lemma {:induction false} OnlyOnMapped(n: Net, ts: seq<Step>, s: Side, j: nat)
    requires NodesInv(n) && Runs(n, ts) && SilentElsewhere(n, s, j)
    requires forall k :: 0 <= k < |n.conns| && k != j ==> !Up(n.conns[k], s)
    ensures RepliesTo(Out(n, ts, s, None)) == RepliesTo(Out(n, ts, s, Some(j)))
    decreases |ts|
  {
    hide NodesInv, NetInv, AboutToDeliver, At, Quiescence.Apply, Total, RepliesTo, OutBy, Out, Up;
    OutStep(n, ts, s, None);
    OutStep(n, ts, s, Some(j));
    if ts != [] {
      var m := Quiescence.Apply(n, ts[0]);
      StepKeeps(n, ts[0]);
      NodesAreNet(n);
      forall k | 0 <= k < |m.conns| && k != j
        ensures !Up(m.conns[k], s) && RepliesTo(AboutToDeliver(At(m.conns[k], s))) == []
      {
        DownStep(n, ts[0], s, k);
        MoveDelivers(n, Run(ts[0]), s, k);
        SilentStays(At(n.conns[k], s), At(m.conns[k], s));
      }
      OnlyOnMapped(m, ts[1..], s, j);
      OnlyOnMappedStep(n, ts[0], s, j);
      RepliesAppend(OutBy(n, ts[0], s, None), Out(m, ts[1..], s, None));
      RepliesAppend(OutBy(n, ts[0], s, Some(j)), Out(m, ts[1..], s, Some(j)));
    }
  }

  lemma OnlyOnMappedStep(n: Net, t: Step, s: Side, j: nat)
    requires StepEnabled(n, t) && SilentElsewhere(n, s, j)
    ensures RepliesTo(OutBy(n, t, s, None)) == RepliesTo(OutBy(n, t, s, Some(j)))
  {
    hide AboutToDeliver, CanAct, At, ReplyList;
    assert RepliesTo([]) == [];
  }

  lemma SilentStays(s: Session, t: Session)
    requires RepliesTo(AboutToDeliver(s)) == [] && s.delivered <= t.delivered && Total(t) == Total(s)
    ensures RepliesTo(AboutToDeliver(t)) == []
  {
    hide AboutToDeliver, ReplyList;
    assert |Total(t)| == |t.delivered| + |AboutToDeliver(t)|;
    if AboutToDeliver(t) != [] {
      assert t.delivered == s.delivered;
      Cancel(s.delivered, AboutToDeliver(s), AboutToDeliver(t));
    }
  }

  /** While no late packet comes in elsewhere, the replies on the mapped
      connection answer exactly what is newly delivered on it, in order. */
  lemma {:induction false} RepliesFollowDeliveries(n: Net, ts: seq<Step>, s: Side, j: nat)
    requires NodesInv(n) && Runs(n, ts) && j < |n.conns|
    requires Mapped(Final(n, ts), s) == Some(j) && SilentElsewhere(n, s, j)
    ensures |Final(n, ts).conns| == |n.conns|
    ensures var c, d := At(n.conns[j], s), At(Final(n, ts).conns[j], s);
      && c.delivered <= d.delivered
      && d.sent == c.sent + RepliesTo(d.delivered[|c.delivered|..])
  {
    hide NodesInv, NetInv, Runs, Final, Out, At, SilentElsewhere, Up;
    OutIsAnswered(n, ts, s, j);
    UnmappedIsDown(n, s, j);
    OnlyOnMapped(n, ts, s, j);
    NodesAreNet(n);
    OutIsDelivered(n, ts, s, j);
  }

  /** A side's replies at rest, in terms of what the other side had sent before. */
  lemma {:induction false} RepliesAtRest(sent: seq<Packet>, more: seq<Packet>, n: nat)
    requires n <= |sent|
    ensures RepliesTo(NormaliseAll(sent + RepliesTo(more))[n..]) == RepliesTo(sent[n..])
  {
    var all := sent + RepliesTo(more);
    assert NormaliseAll(all)[n..] == NormaliseAll(all[n..]);
    assert all[n..] == sent[n..] + RepliesTo(more);
    RepliesToNormalised(all[n..]);
    RepliesAppend(sent[n..], RepliesTo(more));
    RepliesCallForNone(more);
    assert RepliesTo(sent[n..]) + [] == RepliesTo(sent[n..]);
  }

  lemma DeliveredNoMoreThanSent(c: Conn)
    requires Healthy(c)
    ensures |c.a.delivered| <= |c.b.sent| && |c.b.delivered| <= |c.a.sent|
  {
    AllValidPrefix(c.a.sent);
    AllValidPrefix(c.b.sent);
    DeliveredArePrefix(c);
    SwapKeeps(c);
    DeliveredArePrefix(c.Swap());
  }

  /** From state `me` of one end to state `after`, the replies to what the peer
      had sent before and was still to be delivered here have gone out, and so
      have the replies to late packets of other connections. */
  ghost predicate Answered(me: Session, peer: Session, after: Session, late: multiset<Packet>) {
    && |me.delivered| <= |peer.sent|
    && me.sent <= after.sent
    && multiset(after.sent) ==
         multiset(me.sent) + multiset(RepliesTo(peer.sent[|me.delivered|..])) + late
    && (late == multiset{} ==> after.sent == me.sent + RepliesTo(peer.sent[|me.delivered|..]))
  }

  /** A connection is mapped at both nodes and healthy. Whatever other, closed
      connections there are and whatever becomes of them, every schedule that
      spares this one comes to rest in the same place: it is still mapped, each
      side has sent on it exactly one reply to each packet of the other that was
      still to be delivered, in order, and to each late packet of a closed
      connection, and everything sent on it, these replies included, has been
      delivered. */
  lemma {:induction false} OutcomeOfTheExchange(n: Net, ts: seq<Step>, j: nat, s: Side)
    requires NodesInv(n) && j < |n.conns| && Healthy(n.conns[j])
    requires Runs(n, ts) && SparesAll(n, ts, j) && AtRest(Final(n, ts))
    ensures var m := Final(n, ts);
      && |m.conns| == |n.conns| && Mapped(m, s) == Some(j)
      && Answered(At(n.conns[j], s), At(n.conns[j], Other(s)), At(m.conns[j], s), LateReplies(n, s, j, |n.conns|))
      && At(m.conns[j], s).delivered == NormaliseAll(At(m.conns[j], Other(s)).sent)
  {
    hide NodesInv, NetInv, Runs, Final, AtRest, Out, SparesAll, AboutToDeliver, RepliesTo, LateReplies, ConnInv;
    var m := Final(n, ts);
    NodesAreNet(n);
    EverythingArrives(n, ts, j);
    StepsKeep(n, ts);
    EndIsMapped(m, s, j);
    EndIsMapped(m, Other(s), j);
    OutIsAnswered(n, ts, s, j);
    OutIsAnswered(n, ts, Other(s), j);
    OutIsDelivered(n, ts, s, j);
    DeliveredNoMoreThanSent(n.conns[j]);
    var me, peer := At(n.conns[j], s), At(n.conns[j], Other(s));
    var own := Out(n, ts, s, Some(j));
    assert own == At(m.conns[j], s).delivered[|me.delivered|..];
    RepliesAtRest(peer.sent, Out(n, ts, Other(s), None), |me.delivered|);
    assert RepliesTo(own) == RepliesTo(peer.sent[|me.delivered|..]);
    UnmappedIsDown(n, s, j);
    RepliesByConnection(n, ts, s);
    LateRepliesSum(n, ts, s, j, |n.conns|);
    if LateReplies(n, s, j, |n.conns|) == multiset{} {
      NoLateReplies(n, s, j, |n.conns|);
      OnlyOnMapped(n, ts, s, j);
    }
  }

  // ----- the case exists ----------------------------------------------------

  /** A session that is up and has sent these packets, all of them out. */
  function HasSent(ps: seq<Packet>): Session {
    Fresh().(started := true, pendingReads := [ReadHeader([])], sent := ps, wire := EncodeAll(ps))
  }

  /** A replaced connection: closed at both ends, with a ping complete in A's buffer. */
  function ReplacedWithPing(): Conn {
    Conn(CloseSession(WithPing()), CloseSession(HasSent([MakePing()])), [], [])
  }

  function NewConnection(): Conn {
    Conn(HasSent([]), HasSent([]), [], [])
  }

  /** It has been replaced by a new one; another one is still being set up. */
  function AfterReplacing(): Net {
    Net([ReplacedWithPing(), NewConnection(), Opened()], Some(1), Some(1))
  }

  lemma HasSentInv(ps: seq<Packet>)
    ensures Inv(HasSent(ps)) && Inv(CloseSession(HasSent(ps)))
  {
  }

  lemma WithPingInv()
    ensures Inv(CloseSession(WithPing())) && Arrived(WithPing()) == Encode(MakePing())
  {
    hide Encode, HeaderBytes, DeserializeHeader;
    PingIsDue();
    assert [] + Encode(MakePing()) == Encode(MakePing());
  }

  lemma ReplacedIsSound()
    ensures ConnInv(ReplacedWithPing())
  {
    hide Encode, Inv;
    WithPingInv();
    HasSentInv([MakePing()]);
    assert EncodeAll([MakePing()]) == Encode(MakePing()) + [] == Encode(MakePing());
    assert Encode(MakePing()) + [] == Encode(MakePing());
  }

  lemma NewIsSound()
    ensures Healthy(NewConnection())
  {
    hide Inv;
    HasSentInv([]);
  }

  lemma ReplacingFits()
    ensures NodesInv(AfterReplacing())
  {
    hide ConnInv;
    ReplacedIsSound();
    NewIsSound();
    OpenedInv();
  }

  lemma LateReplyIsPong()
    ensures LateReplies(AfterReplacing(), A, 1, 3) == multiset{MakePong()}
  {
    hide AboutToDeliver;
    var n := AfterReplacing();
    PingIsDue();
    CloseKeepsDue(WithPing());
    assert At(n.conns[0], A) == CloseSession(WithPing());
    assert [MakePing()][1..] == [];
    assert RepliesTo([MakePing()]) == [MakePong()] + RepliesTo([]) == [MakePong()];
    assert LateReplies(n, A, 1, 1) == LateReplies(n, A, 1, 0) + multiset([MakePong()]);
    assert At(n.conns[2], A) == Fresh() && AboutToDeliver(Fresh()) == [] by { IncompleteDeliversNothing(Fresh()); }
    assert RepliesTo([]) == [];
    assert LateReplies(n, A, 1, 3) == LateReplies(n, A, 1, 2) + multiset([]);
  }

  /** A state the results above are about: a closed connection still holds a
      ping at node A, and it will be answered on the new connection. */
  lemma LateRequestExists()
    ensures var n := AfterReplacing();
      && NodesInv(n) && Healthy(n.conns[1]) && Mapped(n, A) == Mapped(n, B) == Some(1)
      && LateReplies(n, A, 1, 3) == multiset{MakePong()}
  {
    hide ConnInv, LateReplies, NodesInv;
    NewIsSound();
    ReplacingFits();
    LateReplyIsPong();
  }

  lemma CloseKeepsDue(s: Session)
    ensures AboutToDeliver(CloseSession(s)) == AboutToDeliver(s)
  {
  }
}
