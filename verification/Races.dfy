/** Racing connects between two nodes: both ends of every connection are
    registered, each node in its own order; a registration replaces and closes
    what the node had mapped, and the end of a connection whose peer has closed
    is told in due course. Connections may also break, and peers be given up. */
module Races {
  import opened Protocol
  import opened Frames
  import opened SessionModel
  import opened SessionRuns
  import opened Delivery
  import opened Quiescence
  import opened Nodes
  import opened Answers

  // ----- what can end a connection ------------------------------------------

  /** The move ends connection j by itself: an operation on it fails, a header on
      it is refused, or the peer is given up while it is the mapped one. */
  predicate Ends(n: Net, m: Move, j: nat)
    requires MoveEnabled(n, m)
  {
    m.Run? && DownBy(n, m.t) == Some(j)
  }

  predicate NeverEnds(n: Net, ms: seq<Move>, j: nat)
    requires Makes(n, ms)
    decreases |ms|
  {
    ms == [] || (!Ends(n, ms[0], j) && NeverEnds(Make(n, ms[0]), ms[1..], j))
  }

  lemma {:induction false} GoneMove(n: Net, m: Move, j: nat)
    requires NodesInv(n) && MoveEnabled(n, m) && j < |n.conns|
    ensures |Make(n, m).conns| == |n.conns|
    ensures Gone(n.conns[j]) || Ends(n, m, j) ==> Gone(Make(n, m).conns[j])
  {
    hide NodesInv, Make;
    MoveEnd(n, m, j, A);
    MoveEnd(n, m, j, B);
  }

  /** A connection that has lost an end has lost it for good. */
  lemma {:induction false} GoneStays(n: Net, ms: seq<Move>, j: nat)
    requires NodesInv(n) && Makes(n, ms) && j < |n.conns| && Gone(n.conns[j])
    ensures |Made(n, ms).conns| == |n.conns| && Gone(Made(n, ms).conns[j])
    decreases |ms|
  {
    hide NodesInv, Make, Downs, Ends, Gone;
    if ms != [] {
      GoneMove(n, ms[0], j);
      MoveMaps(n, ms[0], A);
      GoneStays(Make(n, ms[0]), ms[1..], j);
    }
  }

  lemma {:induction false} EndedIsGone(n: Net, ms: seq<Move>, j: nat)
    requires NodesInv(n) && Makes(n, ms) && j < |n.conns| && !NeverEnds(n, ms, j)
    ensures |Made(n, ms).conns| == |n.conns| && Gone(Made(n, ms).conns[j])
    decreases |ms|
  {
    hide NodesInv, Make, Downs, Ends, Gone;
    if ms != [] {
      GoneMove(n, ms[0], j);
      MoveMaps(n, ms[0], A);
      if Ends(n, ms[0], j) {
        GoneStays(Make(n, ms[0]), ms[1..], j);
      } else {
        EndedIsGone(Make(n, ms[0]), ms[1..], j);
      }
    }
  }

  // ----- the last registration ----------------------------------------------

  /** Connection j has been, or is going to be, the last one a node registers. */
  predicate LastAt(n: Net, ms: seq<Move>, j: nat, s: Side)
    requires j < |n.conns|
  {
    LastRegistered(ms, s) == if At(n.conns[j], s).started then None else Some(j)
  }

  lemma {:induction false} LastAtStep(n: Net, ms: seq<Move>, j: nat, s: Side)
    requires NodesInv(n) && Makes(n, ms) && ms != [] && j < |n.conns| && !Gone(n.conns[j]) && LastAt(n, ms, j, s)
    requires !Ends(n, ms[0], j)
    ensures var q := Make(n, ms[0]);
      |q.conns| == |n.conns| && LastAt(q, ms[1..], j, s) && !At(q.conns[j], s).closed
  {
    hide NodesInv, Make;
    var q := Make(n, ms[0]);
    MoveMaps(n, ms[0], s);
    MoveEnd(n, ms[0], j, s);
    EndIsMapped(n, s, j);
    if At(q.conns[j], s).started {
      NotTwice(q, ms[1..], j, s);
    }
  }

  /** A connection that both nodes register last stays up at both ends as long as
      nothing ends it. */
  lemma {:induction false} LastAtBothStays(n: Net, ms: seq<Move>, j: nat)
    requires NodesInv(n) && Makes(n, ms) && j < |n.conns| && !Gone(n.conns[j])
    requires LastAt(n, ms, j, A) && LastAt(n, ms, j, B) && NeverEnds(n, ms, j)
    ensures var f := Made(n, ms);
      |f.conns| == |n.conns| && Up(f.conns[j], A) && Up(f.conns[j], B)
    decreases |ms|
  {
    hide NodesInv, MoveEnabled, Make, Ends;
    if ms != [] {
      LastAtStep(n, ms, j, A);
      LastAtStep(n, ms, j, B);
      MoveMaps(n, ms[0], A);
      LastAtBothStays(Make(n, ms[0]), ms[1..], j);
    }
  }

  // ----- at rest ------------------------------------------------------------

  /** The step has to happen sooner or later: a byte can move, a handler waits,
      or an operation fails on a connection one end of which is closed. */
  predicate Due(n: Net, t: Step) {
    StepEnabled(n, t) && (IsProgress(t) || (t.Break? && Gone(n.conns[t.j])))
  }

  ghost predicate Settles(n: Net) {
    forall t: Step :: !Due(n, t)
  }

  predicate AllRegistered(n: Net) {
    forall j :: 0 <= j < |n.conns| ==> n.conns[j].a.started && n.conns[j].b.started
  }

  /** An end that is up can move as long as its peer is down: it handles what it
      has read, or it is told. */
  lemma HalfClosedMoves(n: Net, s: Side, j: nat)
    requires NodesInv(n) && j < |n.conns| && Up(n.conns[j], s) && Gone(n.conns[j])
    ensures exists t: Step :: Due(n, t)
  {
    hide Fits;
    var c := n.conns[j];
    var me := At(c, s);
    assert Tidy(c);
    assert me.pendingReads != [];
    if Waiting(me) {
      assert CanAct(c, s, Local(ReadFailed(0)));
      assert Due(n, Break(s, j, Local(ReadFailed(0))));
    } else {
      assert CanAct(c, s, Local(ReadDone(0)));
      assert Due(n, Handle(s, j, 0));
    }
  }

  /** At rest the peer of an end that is up is up. */
  lemma PeerIsUp(n: Net, s: Side, j: nat)
    requires NodesInv(n) && Settles(n) && j < |n.conns| && Up(n.conns[j], s)
    ensures !Gone(n.conns[j])
  {
    hide NodesInv, Due;
    if Gone(n.conns[j]) {
      HalfClosedMoves(n, s, j);
    }
  }

  lemma RestAgrees(n: Net)
    requires NodesInv(n) && Settles(n) && AllRegistered(n)
    ensures n.atA == n.atB
    ensures n.atA.Some? ==> n.atA.value < |n.conns| && !Gone(n.conns[n.atA.value])
  {
    hide Tidy, Settles, Due;
    if n.atA.Some? {
      MappedIsUp(n, A);
      PeerIsUp(n, A, n.atA.value);
      EndIsMapped(n, B, n.atA.value);
    }
    if n.atB.Some? {
      MappedIsUp(n, B);
      PeerIsUp(n, B, n.atB.value);
      EndIsMapped(n, A, n.atB.value);
    }
  }

  /** Any number of connections, none of them registered yet. */
  function Dialled(count: nat): Net {
    Net(seq(count, _ => Opened()), None, None)
  }

  lemma DialledInv(count: nat)
    ensures NodesInv(Dialled(count))
  {
    OpenedInv();
  }

  lemma {:induction false} LastIsInside(n: Net, ms: seq<Move>, s: Side)
    requires NodesInv(n) && Makes(n, ms)
    ensures LastRegistered(ms, s).Some? ==> LastRegistered(ms, s).value < |n.conns|
    decreases |ms|
  {
    hide NodesInv, Make, Downs;
    if ms != [] {
      MoveMaps(n, ms[0], s);
      LastIsInside(Make(n, ms[0]), ms[1..], s);
    }
  }

  /** Two nodes race to connect. However registrations, transfers, replies, the
      clients' packets, failures of any connection and evictions interleave: once
      every connection has been registered at both ends and the system has come
      to rest, the nodes are connected if and only if both registered the same
      connection last and nothing has ended it since, and then by that one.
      Otherwise both tables are empty. */
  lemma RacingNodes(count: nat, ms: seq<Move>)
    requires Makes(Dialled(count), ms)
    requires var f := Made(Dialled(count), ms); Settles(f) && AllRegistered(f)
    ensures var f := Made(Dialled(count), ms); var a, b := LastRegistered(ms, A), LastRegistered(ms, B);
      f.atA == f.atB == if a == b && a.Some? && NeverEnds(Dialled(count), ms, a.value) then a else None
  {
    hide NodesInv, Makes, Made, Settles, LastRegistered, NeverEnds, Gone;
    var n, f := Dialled(count), Made(Dialled(count), ms);
    DialledInv(count);
    MovesKeep(n, ms);
    RestAgrees(f);
    MappedIsLast(n, ms, A);
    MappedIsLast(n, ms, B);
    var a, b := LastRegistered(ms, A), LastRegistered(ms, B);
    if a == b && a.Some? {
      LastIsInside(n, ms, A);
      if NeverEnds(n, ms, a.value) {
        assert !Gone(n.conns[a.value]) by { NewIsNotGone(); }
        LastAtBothStays(n, ms, a.value);
        EndIsMapped(f, A, a.value);
      } else {
        EndedIsGone(n, ms, a.value);
      }
    }
  }

  lemma NewIsNotGone()
    ensures !Gone(Opened())
  {
  }

  // ----- races in which nothing breaks by itself ----------------------------

  /** What the client sends in the move, if anything, the format can carry. */
  predicate SaysValid(m: Move) {
    && (m.Say? ==> Valid(m.p))
    && (m.Register? && m.hello.Some? ==> |m.hello.value| <= MAX_PAYLOAD)
  }

  /** Nothing happens but what has to, registrations, and packets the format can carry. */
  predicate Undisturbed(n: Net, ms: seq<Move>)
    requires Makes(n, ms)
    decreases |ms|
  {
    ms == [] ||
    ((ms[0].Run? ==> Due(n, ms[0].t)) && SaysValid(ms[0]) && Undisturbed(Make(n, ms[0]), ms[1..]))
  }

  predicate SendsValid(n: Net) {
    forall j, s: Side :: 0 <= j < |n.conns| ==> forall p <- At(n.conns[j], s).sent :: Valid(p)
  }

  lemma {:induction false} StaysValid(n: Net, m: Move)
    requires NodesInv(n) && SendsValid(n) && MoveEnabled(n, m) && SaysValid(m)
    ensures SendsValid(Make(n, m))
  {
    hide NodesInv, MoveEnabled, Make, At, Downs, RepliesTo;
    var q := Make(n, m);
    MoveMaps(n, m, A);
    forall j, s: Side | 0 <= j < |q.conns| ensures forall p <- At(q.conns[j], s).sent :: Valid(p) {
      MoveSends(n, m, s, j);
      RepliesAreValid(HandedBy(n, m, s, None));
    }
  }

  /** A receiver of valid packets refuses none. */
  lemma {:induction false} NothingRefused(c: Conn, s: Side, i: nat)
    requires Tidy(c) && CanAct(c, s, Local(ReadDone(i)))
    requires forall p <- At(c, Other(s)).sent :: Valid(p)
    ensures !Errs(c, s, Local(ReadDone(i)))
  {
    hide ConnInv, Inv, DeserializeHeader, FirstBadIsRefused, Valid, Encode;
    var d := Act(c, s, Local(ReadDone(i)));
    ActKeeps(c, s, Local(ReadDone(i)));
    if Errs(c, s, Local(ReadDone(i))) {
      var w := From(d, Other(s));
      SwapKeeps(d);
      AllValidPrefix(w.a.sent);
      RefusalIsExact(w);
    }
  }

  /** In a race without disturbances a connection ends only after one of its ends
      has been closed by a registration. */
  lemma {:induction false} DueEndsOnlyGone(n: Net, t: Step, j: nat)
    requires NodesInv(n) && SendsValid(n) && Due(n, t) && DownBy(n, t) == Some(j)
    ensures j < |n.conns| && Gone(n.conns[j])
  {
    hide Tidy, Fits, Act, CanAct, Valid, Gone, IsError;
    match t {
      case Handle(s, k, i) =>
        EndIsMapped(n, s, k);
        assert forall p <- At(n.conns[k], Other(s)).sent :: Valid(p);
        NothingRefused(n.conns[k], s, i);
      case Transport(s, k, x) =>
        if x.Local? {
          OperationErrors(At(n.conns[k], s), x.e);
        }
      case _ =>
    }
  }

  lemma {:induction false} LastNeverEnds(n: Net, ms: seq<Move>, j: nat)
    requires NodesInv(n) && SendsValid(n) && Makes(n, ms) && Undisturbed(n, ms) && j < |n.conns| && !Gone(n.conns[j])
    requires LastAt(n, ms, j, A) && LastAt(n, ms, j, B)
    ensures NeverEnds(n, ms, j)
    decreases |ms|
  {
    hide NodesInv, MoveEnabled, Make, SendsValid, Due, DownBy;
    if ms != [] {
      if Ends(n, ms[0], j) {
        DueEndsOnlyGone(n, ms[0].t, j);
      }
      LastAtStep(n, ms, j, A);
      LastAtStep(n, ms, j, B);
      MoveMaps(n, ms[0], A);
      StaysValid(n, ms[0]);
      LastNeverEnds(Make(n, ms[0]), ms[1..], j);
    }
  }

  /** When nothing breaks by itself only the orders of registration count: the
      nodes stay connected if and only if both registered the same one last. */
  lemma UndisturbedRace(count: nat, ms: seq<Move>)
    requires Makes(Dialled(count), ms) && Undisturbed(Dialled(count), ms)
    requires var f := Made(Dialled(count), ms); Settles(f) && AllRegistered(f)
    ensures var f := Made(Dialled(count), ms); var a, b := LastRegistered(ms, A), LastRegistered(ms, B);
      f.atA == f.atB == if a == b then a else None
  {
    hide NodesInv, Makes, Made, Settles, LastRegistered, Undisturbed, NeverEnds, Gone;
    var n := Dialled(count);
    DialledInv(count);
    RacingNodes(count, ms);
    var a := LastRegistered(ms, A);
    if a == LastRegistered(ms, B) && a.Some? {
      LastIsInside(n, ms, A);
      assert !Gone(n.conns[a.value]) by { NewIsNotGone(); }
      LastNeverEnds(n, ms, a.value);
    }
  }

  // ----- rest is reached ----------------------------------------------------

  lemma DueLowersRank(n: Net, t: Step)
    requires NodesInv(n) && Due(n, t)
    ensures MoveEnabled(n, Run(t)) && NodesInv(Make(n, Run(t))) && Rank(Make(n, Run(t))) < Rank(n)
  {
    hide NodesInv, Rank, Quiescence.Apply, StepEnabled, Downs;
    NodesAreNet(n);
    StepWorks(n, t);
    MoveMaps(n, Run(t), A);
  }

  /** Left alone, the two nodes come to rest. */
  lemma {:induction false} RaceToRest(n: Net) returns (ms: seq<Move>)
    requires NodesInv(n)
    ensures Makes(n, ms) && Settles(Made(n, ms)) && NodesInv(Made(n, ms))
    ensures Undisturbed(n, ms) && forall m <- ms :: m.Run?
    decreases Rank(n)
  {
    hide NodesInv, MoveEnabled, Make, Rank, Due;
    NodesAreNet(n);
    if Settles(n) {
      ms := [];
    } else {
      var t: Step :| Due(n, t);
      DueLowersRank(n, t);
      var rest := RaceToRest(Make(n, Run(t)));
      ms := [Run(t)] + rest;
      assert ms[1..] == rest;
    }
  }

  lemma {:induction false} RaceAppend(n: Net, ms: seq<Move>, ns: seq<Move>)
    requires Makes(n, ms) && Makes(Made(n, ms), ns)
    ensures Makes(n, ms + ns) && Made(n, ms + ns) == Made(Made(n, ms), ns)
    ensures Undisturbed(n, ms) && Undisturbed(Made(n, ms), ns) ==> Undisturbed(n, ms + ns)
    decreases |ms|
  {
    hide MoveEnabled, Make, Due, Valid;
    if ms == [] {
      assert ms + ns == ns;
    } else {
      RaceAppend(Make(n, ms[0]), ms[1..], ns);
      assert (ms + ns)[1..] == ms[1..] + ns;
    }
  }

  lemma {:induction false} RunsRegisterNothing(ms: seq<Move>, ns: seq<Move>, s: Side)
    requires forall m <- ns :: m.Run?
    ensures LastRegistered(ms + ns, s) == LastRegistered(ms, s)
    decreases |ms| + |ns|
  {
    if ms != [] {
      assert (ms + ns)[1..] == ms[1..] + ns;
      RunsRegisterNothing(ms[1..], ns, s);
    } else if ns != [] {
      assert ns[0] in ns && ms + ns == ns && [] + ns[1..] == ns[1..];
      RunsRegisterNothing([], ns[1..], s);
    }
  }

  lemma {:induction false} StaysRegistered(n: Net, ms: seq<Move>)
    requires NodesInv(n) && Makes(n, ms) && AllRegistered(n)
    ensures AllRegistered(Made(n, ms))
    decreases |ms|
  {
    hide NodesInv, Make, MoveEnabled, Downs;
    if ms != [] {
      var q := Make(n, ms[0]);
      MoveMaps(n, ms[0], A);
      forall j | 0 <= j < |q.conns| ensures q.conns[j].a.started && q.conns[j].b.started {
        MoveEnd(n, ms[0], j, A);
        MoveEnd(n, ms[0], j, B);
      }
      StaysRegistered(q, ms[1..]);
    }
  }

  /** Every race without disturbances that has registered all connections can be
      continued to rest, and then ends as its registrations say. */
  lemma {:induction false} RaceOutcome(count: nat, ms: seq<Move>) returns (all: seq<Move>)
    requires Makes(Dialled(count), ms) && Undisturbed(Dialled(count), ms) && AllRegistered(Made(Dialled(count), ms))
    ensures ms <= all && Makes(Dialled(count), all) && Undisturbed(Dialled(count), all)
    ensures LastRegistered(all, A) == LastRegistered(ms, A) && LastRegistered(all, B) == LastRegistered(ms, B)
    ensures var f := Made(Dialled(count), all); var a, b := LastRegistered(ms, A), LastRegistered(ms, B);
      AllRegistered(f) && Settles(f) && f.atA == f.atB == if a == b then a else None
  {
    hide NodesInv, Makes, Made, Settles, Undisturbed, LastRegistered, AllRegistered;
    var n := Dialled(count);
    DialledInv(count);
    MovesKeep(n, ms);
    var rest := RaceToRest(Made(n, ms));
    all := ms + rest;
    RaceAppend(n, ms, rest);
    StaysRegistered(Made(n, ms), rest);
    RunsRegisterNothing(ms, rest, A);
    RunsRegisterNothing(ms, rest, B);
    UndisturbedRace(count, all);
  }

  // ----- crossed connects ---------------------------------------------------

  /** The four registrations of two connections, in crossed order. */
  const CROSSED: seq<Move> := [Register(A, 0, None), Register(B, 1, None), Register(A, 1, None), Register(B, 0, None)]

  lemma CrossedIsPossible()
    ensures Makes(Dialled(2), CROSSED) && Undisturbed(Dialled(2), CROSSED)
    ensures AllRegistered(Made(Dialled(2), CROSSED))
  {
    hide NodesInv, Make;
    var n0 := Dialled(2);
    DialledInv(2);
    BothEnds(n0, Register(A, 0, None));
    var n1 := Make(n0, Register(A, 0, None));
    BothEnds(n1, Register(B, 1, None));
    var n2 := Make(n1, Register(B, 1, None));
    BothEnds(n2, Register(A, 1, None));
    var n3 := Make(n2, Register(A, 1, None));
    BothEnds(n3, Register(B, 0, None));
    var n4 := Make(n3, Register(B, 0, None));
    assert CROSSED[1..] == [Register(B, 1, None), Register(A, 1, None), Register(B, 0, None)];
    assert CROSSED[1..][1..] == [Register(A, 1, None), Register(B, 0, None)];
    assert CROSSED[1..][1..][1..] == [Register(B, 0, None)];
    assert CROSSED[1..][1..][1..][1..] == [];
    assert Makes(n4, []) && Made(n4, []) == n4;
    assert Makes(n3, [Register(B, 0, None)]) && Made(n3, [Register(B, 0, None)]) == n4;
    assert Undisturbed(n3, [Register(B, 0, None)]);
    assert Makes(n2, CROSSED[1..][1..]) && Made(n2, CROSSED[1..][1..]) == n4 && Undisturbed(n2, CROSSED[1..][1..]);
    assert Makes(n1, CROSSED[1..]) && Made(n1, CROSSED[1..]) == n4 && Undisturbed(n1, CROSSED[1..]);
  }

  lemma BothEnds(n: Net, m: Move)
    requires NodesInv(n) && MoveEnabled(n, m) && m.Register? && |n.conns| == 2
    ensures var q := Make(n, m);
      && NodesInv(q) && |q.conns| == 2
      && (forall j: nat, s: Side :: j < 2 ==>
            At(q.conns[j], s).started == (At(n.conns[j], s).started || Registers(m, s, j)))
  {
    hide NodesInv, Make, Downs;
    MoveMaps(n, m, A);
    forall j: nat, s: Side | j < 2
      ensures At(Make(n, m).conns[j], s).started == (At(n.conns[j], s).started || Registers(m, s, j))
    {
      MoveEnd(n, m, j, s);
    }
  }

  lemma LastOfCrossed()
    ensures LastRegistered(CROSSED, A) == Some(1) && LastRegistered(CROSSED, B) == Some(0)
  {
    assert CROSSED[1..] == [Register(B, 1, None), Register(A, 1, None), Register(B, 0, None)];
    assert CROSSED[1..][1..] == [Register(A, 1, None), Register(B, 0, None)];
    assert CROSSED[1..][1..][1..] == [Register(B, 0, None)];
    assert CROSSED[1..][1..][1..][1..] == [];
    assert LastRegistered([Register(B, 0, None)], B) == Some(0) && LastRegistered([Register(B, 0, None)], A) == None;
  }

  /** It does happen that both lose: there are two connections, each node
      registers both, in crossed order, nothing breaks by itself, and at rest no
      connection is left. */
  lemma CrossedConnectsLoseBoth() returns (ms: seq<Move>)
    ensures CROSSED <= ms && Makes(Dialled(2), ms) && Undisturbed(Dialled(2), ms)
    ensures LastRegistered(ms, A) == Some(1) && LastRegistered(ms, B) == Some(0)
    ensures var f := Made(Dialled(2), ms); AllRegistered(f) && Settles(f) && f.atA == None && f.atB == None
  {
    hide Makes, Made, Undisturbed, Settles, AllRegistered, LastRegistered;
    CrossedIsPossible();
    LastOfCrossed();
    ms := RaceOutcome(2, CROSSED);
  }
}
