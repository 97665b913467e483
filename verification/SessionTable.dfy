/** The session table of NetworkManager.cpp as a value: which session is mapped
    under which address, over all runs of registrations, failures, discovery
    evictions, stops and racing connects. Each handler is one atomic step; in
    particular a failing session reports and is erased in the same step. */
module SessionTable {

  type Key = string

  /** A registered session: the address its callbacks captured, whether it is
      open, and how often it has reported its own end. */
  datatype Info = Info(key: Key, open: bool, reports: nat)

  datatype Tally = Tally(replaced: nat, failed: nat, evicted: nat, stopped: nat, lostCalls: nat, discoveryLosses: nat)

  datatype Table<S> = Table(mapped: map<Key, S>, info: map<S, Info>, pending: multiset<Key>, tally: Tally)

  function Empty<S>(): Table<S> {
    Table(map[], map[], multiset{}, Tally(0, 0, 0, 0, 0, 0))
  }

  datatype Event<S> =
    | ConnectTo(k: Key)
    | Connected(k: Key, s: S)
    | ConnectFailed(k: Key)
    | Accepted(k: Key, s: S)
    | SessionError(s: S)
    | PeerLost(k: Key)
    | Stop

  // ----- handlers -----------------------------------------------------------

  function Closed<S>(info: map<S, Info>, ss: set<S>): (r: map<S, Info>)
    ensures r.Keys == info.Keys
  {
    map s | s in info :: if s in ss then info[s].(open := false) else info[s]
  }

  lemma ClosedTwice<S>(info: map<S, Info>, ss: set<S>, tt: set<S>)
    ensures Closed(Closed(info, ss), tt) == Closed(info, ss + tt)
  {
  }

  lemma NoneClosed<S>(info: map<S, Info>)
    ensures Closed(info, {}) == info
  {
  }

  /** The table entry is overwritten; a session it held is closed first. */
  function Overwrite<S>(t: Table<S>, k: Key, s: S): Table<S> {
    if k !in t.mapped then t.(mapped := t.mapped[k := s]) else
    t.(mapped := t.mapped[k := s],
       info := Closed(t.info, {t.mapped[k]}),
       tally := t.tally.(replaced := t.tally.replaced + 1))
  }

  function Register<S>(t: Table<S>, k: Key, s: S): Table<S> {
    var u := Overwrite(t, k, s);
    u.(info := u.info[s := Info(k, true, 0)])
  }

  lemma RegisterParts<S>(t: Table<S>, k: Key, s: S, p: multiset<Key>)
    ensures Register(t, k, s).mapped == t.mapped[k := s]
    ensures Register(t, k, s).pending == t.pending
    ensures Register(t, k, s).info.Keys == t.info.Keys + {s}
    ensures Register(t, k, s).tally.discoveryLosses == t.tally.discoveryLosses
    ensures Register(t.(pending := p), k, s) == Register(t, k, s).(pending := p)
  {
  }

  /** The session closes itself, reports, and whatever is mapped at its address is erased. */
  function Fail<S>(t: Table<S>, s: S): Table<S>
    requires s in t.info
  {
    var i := t.info[s];
    if !i.open then t else
    t.(mapped := t.mapped - {i.key},
       info := t.info[s := i.(open := false, reports := i.reports + 1)],
       tally := t.tally.(failed := t.tally.failed + 1, lostCalls := t.tally.lostCalls + 1))
  }

  function Evict<S>(t: Table<S>, k: Key): Table<S> {
    var tally := t.tally.(lostCalls := t.tally.lostCalls + 1, discoveryLosses := t.tally.discoveryLosses + 1);
    if k !in t.mapped then t.(tally := tally) else
    t.(mapped := t.mapped - {k}, info := Closed(t.info, {t.mapped[k]}), tally := tally.(evicted := tally.evicted + 1))
  }

  function StopAll<S>(t: Table<S>): Table<S> {
    t.(mapped := map[], info := Closed(t.info, t.mapped.Values),
       tally := t.tally.(stopped := t.tally.stopped + |t.mapped|))
  }

  function BeginConnect<S>(t: Table<S>, k: Key): Table<S> {
    if k in t.mapped then t else t.(pending := t.pending + multiset{k})
  }

  // ----- steps and runs -----------------------------------------------------

  predicate Enabled<S>(t: Table<S>, e: Event<S>) {
    match e
    case Connected(k, s) => k in t.pending && s !in t.info
    case ConnectFailed(k) => k in t.pending
    case Accepted(k, s) => s !in t.info
    case SessionError(s) => s in t.info
    case _ => true
  }

  function Apply<S>(t: Table<S>, e: Event<S>): Table<S>
    requires Enabled(t, e)
  {
    match e
    case ConnectTo(k) => BeginConnect(t, k)
    case Connected(k, s) => Register(t.(pending := t.pending - multiset{k}), k, s)
    case ConnectFailed(k) => t.(pending := t.pending - multiset{k})
    case Accepted(k, s) => Register(t, k, s)
    case SessionError(s) => Fail(t, s)
    case PeerLost(k) => Evict(t, k)
    case Stop => StopAll(t)
  }

  predicate Legal<S>(t: Table<S>, es: seq<Event<S>>)
    decreases |es|
  {
    es == [] || (Enabled(t, es[0]) && Legal(Apply(t, es[0]), es[1..]))
  }

  function Exec<S>(t: Table<S>, es: seq<Event<S>>): Table<S>
    requires Legal(t, es)
    decreases |es|
  {
    if es == [] then t else Exec(Apply(t, es[0]), es[1..])
  }

  // ----- the table invariant ------------------------------------------------

  predicate IsMapped<S>(t: Table<S>, k: Key, s: S) {
    k in t.mapped && t.mapped[k] == s
  }

  /** A registered session is open exactly when it is the one mapped at its own address. */
  ghost predicate Consistent<S>(t: Table<S>) {
    && (forall s <- t.info :: t.info[s].open <==> IsMapped(t, t.info[s].key, s))
    && (forall k <- t.mapped :: t.mapped[k] in t.info && t.info[t.mapped[k]].key == k)
  }

  function Reporters<S>(info: map<S, Info>): set<S> {
    set s | s in info && info[s].reports > 0
  }

  /** Every registration ends in exactly one way or is still mapped, and the
      lost callback has fired for every failure and every discovery loss. */
  ghost predicate Tallied<S>(t: Table<S>) {
    && |t.info.Keys| == |t.mapped.Keys| + t.tally.replaced + t.tally.failed + t.tally.evicted + t.tally.stopped
    && t.tally.lostCalls == t.tally.failed + t.tally.discoveryLosses
  }

  /** The sessions that reported are those that failed, once each. */
  ghost predicate ReportedOnce<S>(info: map<S, Info>, failed: nat) {
    && |Reporters(info)| == failed
    && (forall s <- info :: info[s].reports <= (if info[s].open then 0 else 1))
  }

  ghost predicate Accounted<S>(t: Table<S>) {
    Tallied(t) && ReportedOnce(t.info, t.tally.failed)
  }

  ghost predicate Inv<S>(t: Table<S>) {
    Consistent(t) && Accounted(t)
  }

  lemma EmptyInv<S>()
    ensures Inv(Empty<S>())
  {
  }

  lemma RegisterIsConsistent<S>(t: Table<S>, k: Key, s: S)
    requires Consistent(t) && s !in t.info
    ensures Consistent(Register(t, k, s))
  {
  }

  lemma ClosingIsSilent<S>(info: map<S, Info>, ss: set<S>, failed: nat)
    requires ReportedOnce(info, failed)
    ensures ReportedOnce(Closed(info, ss), failed)
  {
    assert Reporters(Closed(info, ss)) == Reporters(info);
  }

  lemma OpeningIsSilent<S>(info: map<S, Info>, s: S, k: Key, failed: nat)
    requires ReportedOnce(info, failed) && s !in info
    ensures ReportedOnce(info[s := Info(k, true, 0)], failed)
  {
    assert Reporters(info[s := Info(k, true, 0)]) == Reporters(info);
  }

  lemma RegisterKeeps<S>(t: Table<S>, k: Key, s: S)
    requires Inv(t) && s !in t.info
    ensures Inv(Register(t, k, s))
  {
    hide Consistent, ReportedOnce, Closed;
    RegisterIsConsistent(t, k, s);
    if k in t.mapped {
      var info := Closed(t.info, {t.mapped[k]});
      ClosingIsSilent(t.info, {t.mapped[k]}, t.tally.failed);
      OpeningIsSilent(info, s, k, t.tally.failed);
      NewKey(info, s, Info(k, true, 0));
      assert t.mapped[k := s].Keys == t.mapped.Keys;
    } else {
      OpeningIsSilent(t.info, s, k, t.tally.failed);
      NewKey(t.info, s, Info(k, true, 0));
      NewKey(t.mapped, k, s);
    }
  }

  lemma NewKey<X, Y>(m: map<X, Y>, x: X, y: Y)
    requires x !in m
    ensures |m[x := y].Keys| == |m.Keys| + 1
  {
    assert m[x := y].Keys == m.Keys + {x};
  }

  lemma FailKeeps<S>(t: Table<S>, s: S)
    requires Inv(t) && s in t.info
    ensures Inv(Fail(t, s))
  {
    if t.info[s].open {
      var u := Fail(t, s);
      assert u.info.Keys == t.info.Keys;
      assert u.mapped.Keys == t.mapped.Keys - {t.info[s].key};
      assert Reporters(u.info) == Reporters(t.info) + {s};
    }
  }

  lemma EvictIsConsistent<S>(t: Table<S>, k: Key)
    requires Consistent(t)
    ensures Consistent(Evict(t, k))
  {
  }

  lemma EvictKeeps<S>(t: Table<S>, k: Key)
    requires Inv(t)
    ensures Inv(Evict(t, k))
  {
    hide Consistent, ReportedOnce;
    EvictIsConsistent(t, k);
    if k in t.mapped {
      ClosingIsSilent(t.info, {t.mapped[k]}, t.tally.failed);
      assert Evict(t, k).mapped.Keys == t.mapped.Keys - {k};
    }
  }

  lemma {:induction false} StopKeeps<S>(t: Table<S>)
    requires Inv(t)
    ensures Inv(StopAll(t))
  {
    var u := StopAll(t);
    ClosingIsSilent(t.info, t.mapped.Values, t.tally.failed);
    assert u.mapped.Keys == {};
    forall s <- u.info ensures !u.info[s].open {
      if t.info[s].open {
        assert t.mapped[t.info[s].key] in t.mapped.Values;
      }
    }
  }

  lemma StepKeeps<S>(t: Table<S>, e: Event<S>)
    requires Inv(t) && Enabled(t, e)
    ensures Inv(Apply(t, e))
  {
    match e
    case ConnectTo(k) => PendingIsIrrelevant(t, Apply(t, e));
    case Connected(k, s) =>
      var u := t.(pending := t.pending - multiset{k});
      PendingIsIrrelevant(t, u);
      RegisterKeeps(u, k, s);
    case ConnectFailed(k) => PendingIsIrrelevant(t, Apply(t, e));
    case Accepted(k, s) => RegisterKeeps(t, k, s);
    case SessionError(s) => FailKeeps(t, s);
    case PeerLost(k) => EvictKeeps(t, k);
    case Stop => StopKeeps(t);
  }

  lemma PendingIsIrrelevant<S>(t: Table<S>, u: Table<S>)
    requires Inv(t) && u == t.(pending := u.pending)
    ensures Inv(u)
  {
  }

  predicate IsRegistration<S>(e: Event<S>) {
    e.Connected? || e.Accepted?
  }

  /** A connect that has completed is no longer pending. */
  function BeforeRegistering<S>(t: Table<S>, e: Event<S>): Table<S>
    requires IsRegistration(e)
  {
    if e.Connected? then t.(pending := t.pending - multiset{e.k}) else t
  }

  function Registrations<S>(es: seq<Event<S>>): nat {
    if es == [] then 0 else (if IsRegistration(es[0]) then 1 else 0) + Registrations(es[1..])
  }

  function PeerLosses<S>(es: seq<Event<S>>): nat {
    if es == [] then 0 else (if es[0].PeerLost? then 1 else 0) + PeerLosses(es[1..])
  }

  lemma StepCounts<S>(t: Table<S>, e: Event<S>)
    requires Enabled(t, e)
    ensures |Apply(t, e).info.Keys| == |t.info.Keys| + Registrations([e])
    ensures Apply(t, e).tally.discoveryLosses == t.tally.discoveryLosses + PeerLosses([e])
  {
    hide Register, Closed;
    if IsRegistration(e) {
      RegisterParts(BeforeRegistering(t, e), e.k, e.s, t.pending);
    } else if e.SessionError? {
      assert Apply(t, e).info.Keys == t.info.Keys;
    }
  }

  lemma {:induction false} RunCounts<S>(t: Table<S>, es: seq<Event<S>>)
    requires Inv(t) && Legal(t, es)
    ensures var u := Exec(t, es);
      && Inv(u)
      && |u.info.Keys| == |t.info.Keys| + Registrations(es)
      && u.tally.discoveryLosses == t.tally.discoveryLosses + PeerLosses(es)
    decreases |es|
  {
    hide Inv;
    if es != [] {
      StepKeeps(t, es[0]);
      StepCounts(t, es[0]);
      RunCounts(Apply(t, es[0]), es[1..]);
    }
  }

  /** In every run of the event system: a registered session is open exactly
      when it is mapped at its own address, so no open session is orphaned. */
  lemma OpenIffMapped<S>(es: seq<Event<S>>)
    requires Legal(Empty(), es)
    ensures var t := Exec(Empty(), es);
      && (forall s <- t.info :: t.info[s].open <==> t.info[s].key in t.mapped && t.mapped[t.info[s].key] == s)
      && (forall k <- t.mapped :: t.mapped[k] in t.info && t.info[t.mapped[k]].key == k)
  {
    EmptyInv<S>();
    RunCounts(Empty(), es);
  }

  /** The sessions an error finds open in a run. */
  function FailedIn<S>(t: Table<S>, es: seq<Event<S>>): set<S>
    requires Legal(t, es)
    decreases |es|
  {
    if es == [] then {}
    else (if es[0].SessionError? && t.info[es[0].s].open then {es[0].s} else {}) + FailedIn(Apply(t, es[0]), es[1..])
  }

  lemma ClosingReports<S>(info: map<S, Info>, ss: set<S>)
    ensures Reporters(Closed(info, ss)) == Reporters(info)
  {
  }

  lemma FailingReports<S>(t: Table<S>, s: S)
    requires s in t.info
    ensures Reporters(Fail(t, s).info) == Reporters(t.info) + if t.info[s].open then {s} else {}
  {
  }

  lemma RegisteringReports<S>(t: Table<S>, k: Key, s: S)
    requires s !in t.info
    ensures Reporters(Register(t, k, s).info) == Reporters(t.info)
  {
    hide Closed;
    if k in t.mapped {
      ClosingReports(t.info, {t.mapped[k]});
      assert s !in Closed(t.info, {t.mapped[k]});
    }
  }

  lemma ReportStep<S>(t: Table<S>, e: Event<S>, s: S)
    requires Enabled(t, e)
    ensures s in Reporters(Apply(t, e).info) <==>
      s in Reporters(t.info) || (e.SessionError? && e.s == s && t.info[s].open)
  {
    hide Closed, Register, Reporters;
    match e {
      case Connected(k, r) => RegisteringReports(t.(pending := t.pending - multiset{k}), k, r);
      case Accepted(k, r) => RegisteringReports(t, k, r);
      case SessionError(r) => FailingReports(t, r);
      case PeerLost(k) => if k in t.mapped { ClosingReports(t.info, {t.mapped[k]}); }
      case Stop => ClosingReports(t.info, t.mapped.Values);
      case _ =>
    }
  }

  lemma {:induction false} ReportersAreFailed<S>(t: Table<S>, es: seq<Event<S>>, s: S)
    requires Legal(t, es)
    ensures s in Reporters(Exec(t, es).info) <==> s in Reporters(t.info) || s in FailedIn(t, es)
    decreases |es|
  {
    hide Reporters, Apply, Enabled;
    if es != [] {
      ReportStep(t, es[0], s);
      ReportersAreFailed(Apply(t, es[0]), es[1..], s);
    }
  }

  lemma ReportersFromStart<S>(es: seq<Event<S>>)
    requires Legal(Empty(), es)
    ensures Reporters(Exec(Empty(), es).info) == FailedIn(Empty(), es)
  {
    hide Legal, Exec, FailedIn, Reporters;
    var reporters, failed := Reporters(Exec(Empty(), es).info), FailedIn(Empty(), es);
    NobodyReported<S>();
    forall s <- reporters ensures s in failed {
      ReportersAreFailed(Empty(), es, s);
    }
    forall s <- failed ensures s in reporters {
      ReportersAreFailed(Empty(), es, s);
    }
  }

  lemma NobodyReported<S>()
    ensures Reporters(Empty<S>().info) == {}
  {
  }

  lemma ReportsOfEach<S>(info: map<S, Info>, failed: nat)
    requires ReportedOnce(info, failed)
    ensures |Reporters(info)| == failed
    ensures forall s <- info :: info[s].reports == if s in Reporters(info) then 1 else 0
    ensures forall s <- info :: s in Reporters(info) ==> !info[s].open
  {
  }

  /** In every run, before and after a stop: each registration is still mapped
      or was replaced, failed, evicted or stopped; the lost callback fired once
      per failure and once per discovery loss; a session reported exactly if an
      error found it open, once, and none that reported is open. */
  lemma Conservation<S>(es: seq<Event<S>>)
    requires Legal(Empty(), es)
    ensures var t := Exec(Empty(), es); var c := t.tally;
      && Registrations(es) == |t.mapped| + c.replaced + c.failed + c.evicted + c.stopped
      && c.lostCalls == c.failed + PeerLosses(es)
      && c.failed == |FailedIn(Empty(), es)|
      && (forall s <- t.info :: t.info[s].reports == if s in FailedIn(Empty(), es) then 1 else 0)
      && (forall s <- t.info :: s in FailedIn(Empty(), es) ==> !t.info[s].open)
  {
    hide Legal, Exec, FailedIn, ReportedOnce, Reporters, Consistent;
    EmptyInv<S>();
    RunCounts(Empty(), es);
    var t := Exec(Empty(), es);
    assert Empty<S>().info.Keys == {};
    ReportersFromStart(es);
    ReportsOfEach(t.info, t.tally.failed);
  }

  // ----- consequences -------------------------------------------------------

  /** What an erase that looks at the session's identity would leave. */
  function WithoutSession<S(==)>(m: map<Key, S>, s: S): map<Key, S> {
    map k | k in m && m[k] != s :: m[k]
  }

  /** Erasing by address alone removes the failed session and nothing else,
      whichever session fails, open or not. */
  lemma BlindEraseIsRight<S>(t: Table<S>, s: S)
    requires Inv(t) && s in t.info
    ensures Fail(t, s).mapped == WithoutSession(t.mapped, s)
  {
  }

  /** At most one open registered session per address. */
  lemma OneOpenPerKey<S>(t: Table<S>, r: S, s: S)
    requires Inv(t) && r in t.info && s in t.info
    requires t.info[r].open && t.info[s].open && t.info[r].key == t.info[s].key
    ensures r == s
  {
  }

  predicate IsConnected<S>(t: Table<S>, k: Key) {
    k in t.mapped && t.mapped[k] in t.info && t.info[t.mapped[k]].open
  }

  /** The guard on peer discovery and the guard in connect_to ask the same question. */
  lemma GuardsAgree<S>(t: Table<S>, k: Key)
    requires Inv(t)
    ensures IsConnected(t, k) <==> k in t.mapped
    ensures IsConnected(t, k) <==> BeginConnect(t, k) == t
  {
    assert k !in t.mapped ==> BeginConnect(t, k).pending[k] == t.pending[k] + 1;
  }

  // ----- pending connects ---------------------------------------------------

  /** The connects to one address a run begins: those that find it unmapped. */
  function Dials<S>(t: Table<S>, es: seq<Event<S>>, k: Key): nat
    requires Legal(t, es)
    decreases |es|
  {
    if es == [] then 0
    else (if es[0] == ConnectTo(k) && k !in t.mapped then 1 else 0) + Dials(Apply(t, es[0]), es[1..], k)
  }

  /** The connects to one address that come to their end, one way or the other. */
  function Outcomes<S(==)>(es: seq<Event<S>>, k: Key): nat {
    if es == [] then 0
    else (if (es[0].Connected? || es[0].ConnectFailed?) && es[0].k == k then 1 else 0) + Outcomes(es[1..], k)
  }

  lemma PendingStep<S>(t: Table<S>, e: Event<S>, k: Key)
    requires Enabled(t, e)
    ensures Apply(t, e).pending[k] + (if (e.Connected? || e.ConnectFailed?) && e.k == k then 1 else 0) ==
      t.pending[k] + if e == ConnectTo(k) && k !in t.mapped then 1 else 0
  {
    hide Register, Closed;
    if IsRegistration(e) {
      RegisterParts(BeforeRegistering(t, e), e.k, e.s, t.pending);
    }
  }

  /** Over every run, for every address: the connects pending at the end are those
      begun, at this address, less those that succeeded or failed. */
  lemma {:induction false} EveryDialIsPending<S>(t: Table<S>, es: seq<Event<S>>, k: Key)
    requires Legal(t, es)
    ensures Exec(t, es).pending[k] + Outcomes(es, k) == t.pending[k] + Dials(t, es, k)
    decreases |es|
  {
    hide Apply, Enabled;
    if es != [] {
      PendingStep(t, es[0], k);
      EveryDialIsPending(Apply(t, es[0]), es[1..], k);
    }
  }

  // ----- racing connects ----------------------------------------------------

  /** The sessions a run registers under one address, in order. */
  function RegisteredFor<S>(es: seq<Event<S>>, k: Key): seq<S> {
    if es == [] then []
    else (if IsRegistration(es[0]) && es[0].k == k then [es[0].s] else []) + RegisteredFor(es[1..], k)
  }

  /** The table entries after a step. */
  function MappedAfter<S>(t: Table<S>, e: Event<S>): map<Key, S>
    requires Enabled(t, e)
  {
    match e
    case Connected(l, s) => t.mapped[l := s]
    case Accepted(l, s) => t.mapped[l := s]
    case SessionError(s) => if t.info[s].open then t.mapped - {t.info[s].key} else t.mapped
    case PeerLost(l) => t.mapped - {l}
    case Stop => map[]
    case _ => t.mapped
  }

  lemma ApplyMapped<S>(t: Table<S>, e: Event<S>)
    requires Enabled(t, e)
    ensures Apply(t, e).mapped == MappedAfter(t, e)
  {
    hide Register, Closed, Fail, Evict;
    match e {
      case Connected(l, s) => RegisterParts(BeforeRegistering(t, e), l, s, t.pending);
      case Accepted(l, s) => RegisterParts(t, l, s, t.pending);
      case SessionError(s) => FailErases(t, s);
      case PeerLost(l) => EvictErases(t, l);
      case _ =>
    }
  }

  /** Apart from the address of a registration, a step only erases entries. */
  lemma MappedStep<S>(t: Table<S>, e: Event<S>, k: Key)
    requires Enabled(t, e)
    ensures var m := Apply(t, e).mapped;
      if IsRegistration(e) && e.k == k then IsMapped(Apply(t, e), k, e.s)
      else k in m ==> k in t.mapped && m[k] == t.mapped[k]
  {
    hide Apply, Enabled;
    ApplyMapped(t, e);
  }

  lemma FailErases<S>(t: Table<S>, s: S)
    requires s in t.info
    ensures Fail(t, s).mapped == if t.info[s].open then t.mapped - {t.info[s].key} else t.mapped
  {
  }

  lemma EvictErases<S>(t: Table<S>, k: Key)
    ensures Evict(t, k).mapped == t.mapped - {k}
  {
  }

  /** In every run, with any failures, evictions and stops in it: whatever is
      mapped at an address is the last session that was registered there. */
  lemma {:induction false} MappedIsLastRegistered<S>(t: Table<S>, es: seq<Event<S>>, k: Key)
    requires Legal(t, es)
    ensures var ss, m := RegisteredFor(es, k), Exec(t, es).mapped;
      k in m ==> if ss == [] then k in t.mapped && m[k] == t.mapped[k] else m[k] == ss[|ss| - 1]
    decreases |es|
  {
    hide Apply, Enabled;
    if es != [] {
      MappedStep(t, es[0], k);
      MappedIsLastRegistered(Apply(t, es[0]), es[1..], k);
    }
  }

  /** The events that take session s, mapped at k, out of the table for good. */
  predicate Ends<S(==)>(e: Event<S>, k: Key, s: S) {
    e.Stop? || (e.PeerLost? && e.k == k) || (e.SessionError? && e.s == s)
  }

  lemma MappedUntil<S>(t: Table<S>, e: Event<S>, k: Key, s: S)
    requires Inv(t) && Enabled(t, e) && IsMapped(t, k, s) && !(IsRegistration(e) && e.k == k)
    ensures if Ends(e, k, s) then k !in Apply(t, e).mapped else IsMapped(Apply(t, e), k, s)
  {
    hide Apply, ReportedOnce;
    ApplyMapped(t, e);
  }

  /** A session stays mapped, in every run that registers no other one there,
      exactly until it fails, discovery loses the peer, or the manager stops.
      Failures of other sessions, closed ones of the same address included, do
      not touch it. */
  lemma {:induction false} StaysMapped<S>(t: Table<S>, es: seq<Event<S>>, k: Key, s: S)
    requires Inv(t) && Legal(t, es) && IsMapped(t, k, s) && RegisteredFor(es, k) == []
    ensures IsMapped(Exec(t, es), k, s) <==> forall e <- es :: !Ends(e, k, s)
    decreases |es|
  {
    hide Inv, Apply, Enabled, Ends;
    if es != [] {
      assert es[0] in es && forall e <- es :: e == es[0] || e in es[1..];
      MappedUntil(t, es[0], k, s);
      StepKeeps(t, es[0]);
      var u := Apply(t, es[0]);
      if Ends(es[0], k, s) {
        MappedIsLastRegistered(u, es[1..], k);
      } else {
        StaysMapped(u, es[1..], k, s);
      }
    }
  }

  lemma {:induction false} SplitRun<S>(t: Table<S>, es: seq<Event<S>>, i: nat)
    requires Legal(t, es) && i <= |es|
    ensures Legal(t, es[..i]) && Legal(Exec(t, es[..i]), es[i..])
    ensures Exec(t, es) == Exec(Exec(t, es[..i]), es[i..])
    decreases i
  {
    hide Apply, Enabled;
    if i > 0 {
      SplitRun(Apply(t, es[0]), es[1..], i - 1);
      assert es[..i][1..] == es[1..][..i - 1] && es[i..] == es[1..][i - 1..];
    } else {
      assert es[..0] == [] && es[0..] == es;
    }
  }

  lemma {:induction false} LastIsThere<S>(es: seq<Event<S>>, i: nat, k: Key)
    requires i < |es| && IsRegistration(es[i]) && es[i].k == k && RegisteredFor(es[i + 1..], k) == []
    ensures var ss := RegisteredFor(es, k); ss != [] && ss[|ss| - 1] == es[i].s
  {
    if i > 0 {
      assert es[1..][i..] == es[i + 1..];
      LastIsThere(es[1..], i - 1, k);
    }
  }

  /** Event i is the last registration under an address. However connects,
      accepts, failures and evictions interleave around it, its session is
      mapped there in the end if and only if it has not failed, been evicted or
      been stopped since, ... */
  lemma {:induction false} LastOneWins<S>(t: Table<S>, es: seq<Event<S>>, k: Key, i: nat)
    requires Inv(t) && Legal(t, es)
    requires i < |es| && IsRegistration(es[i]) && es[i].k == k && RegisteredFor(es[i + 1..], k) == []
    ensures IsMapped(Exec(t, es), k, es[i].s) <==> forall e <- es[i + 1..] :: !Ends(e, k, es[i].s)
  {
    hide Inv, Apply, Enabled, Ends;
    SplitRun(t, es, i);
    var u, rest := Exec(t, es[..i]), es[i..];
    RunCounts(t, es[..i]);
    assert rest[0] == es[i] && rest[1..] == es[i + 1..];
    MappedStep(u, es[i], k);
    StepKeeps(u, es[i]);
    StaysMapped(Apply(u, es[i]), es[i + 1..], k, es[i].s);
  }

  lemma {:induction false} RegisteredStay<S>(t: Table<S>, es: seq<Event<S>>, k: Key, s: S)
    requires Legal(t, es)
    requires (s in t.info && t.info[s].key == k) || s in RegisteredFor(es, k)
    ensures s in Exec(t, es).info && Exec(t, es).info[s].key == k
    decreases |es|
  {
    if es != [] {
      RegisteredStay(Apply(t, es[0]), es[1..], k, s);
    }
  }

  /** ... and of all sessions the run registers there it is open exactly then,
      and every other one is closed. */
  lemma {:induction false} RacingConnectsConverge<S>(t: Table<S>, es: seq<Event<S>>, k: Key, i: nat, s: S)
    requires Inv(t) && Legal(t, es)
    requires i < |es| && IsRegistration(es[i]) && es[i].k == k && RegisteredFor(es[i + 1..], k) == []
    requires s in RegisteredFor(es, k)
    ensures var u := Exec(t, es);
      s in u.info && (u.info[s].open <==> s == es[i].s && forall e <- es[i + 1..] :: !Ends(e, k, s))
  {
    hide ReportedOnce, Ends;
    RunCounts(t, es);
    RegisteredStay(t, es, k, s);
    MappedIsLastRegistered(t, es, k);
    LastIsThere(es, i, k);
    LastOneWins(t, es, k, i);
  }

  // ----- after a session has ended ------------------------------------------

  lemma ClosedStep<S>(t: Table<S>, e: Event<S>, s: S)
    requires Enabled(t, e) && s in t.info && !t.info[s].open
    ensures s in Apply(t, e).info && Apply(t, e).info[s] == t.info[s]
  {
  }

  /** A session that was replaced, evicted or stopped, or has failed, never
      opens again and never reports again, whatever is registered, under its
      address or another, before or after a stop. */
  lemma {:induction false} ClosedForGood<S>(t: Table<S>, es: seq<Event<S>>, s: S)
    requires Legal(t, es) && s in t.info && !t.info[s].open
    ensures s in Exec(t, es).info && Exec(t, es).info[s] == t.info[s]
    decreases |es|
  {
    hide Apply, Enabled;
    if es != [] {
      ClosedStep(t, es[0], s);
      ClosedForGood(Apply(t, es[0]), es[1..], s);
    }
  }

  /** The sessions a run registers. */
  function RegisteredIn<S>(es: seq<Event<S>>): set<S> {
    if es == [] then {} else (if IsRegistration(es[0]) then {es[0].s} else {}) + RegisteredIn(es[1..])
  }

  lemma RegistrationStep<S>(t: Table<S>, e: Event<S>)
    requires Enabled(t, e)
    ensures Apply(t, e).info.Keys == t.info.Keys + if IsRegistration(e) then {e.s} else {}
  {
    hide Register, Closed;
    if IsRegistration(e) {
      RegisterParts(BeforeRegistering(t, e), e.k, e.s, t.pending);
    } else {
      assert e.SessionError? ==> Apply(t, e).info.Keys == t.info.Keys;
    }
  }

  lemma {:induction false} OnlyRegisteredIn<S>(t: Table<S>, es: seq<Event<S>>)
    requires Legal(t, es)
    ensures Exec(t, es).info.Keys == t.info.Keys + RegisteredIn(es)
    decreases |es|
  {
    hide Apply, Enabled, IsRegistration;
    if es != [] {
      RegistrationStep(t, es[0]);
      OnlyRegisteredIn(Apply(t, es[0]), es[1..]);
    }
  }

  /** Stop ends every session there is, for good and in silence. A connect or
      accept that completes afterwards is still registered: what is mapped
      later was registered later, and without such a straggler the table stays
      empty and nothing reports. */
  lemma StopIsFinal<S>(t: Table<S>, es: seq<Event<S>>)
    requires Inv(t) && Legal(StopAll(t), es)
    ensures var u := Exec(StopAll(t), es);
      && (forall s <- t.info :: s in u.info && !u.info[s].open && u.info[s].reports == t.info[s].reports)
      && (forall k <- u.mapped :: u.mapped[k] in RegisteredIn(es) && u.mapped[k] !in t.info)
      && (RegisteredIn(es) == {} ==> u.mapped == map[] && u.tally.failed == t.tally.failed)
  {
    hide Legal, Exec, Consistent, ReportedOnce, RegisteredIn, StopAll;
    var v, u := StopAll(t), Exec(StopAll(t), es);
    StopKeeps(t);
    StopParts(t);
    RunCounts(v, es);
    OnlyRegisteredIn(v, es);
    forall s <- t.info ensures s in u.info && !u.info[s].open && u.info[s].reports == t.info[s].reports {
      ClosedForGood(v, es, s);
    }
    OpenAreRegistered(u);
    if RegisteredIn(es) == {} {
      SameReporters(t.info, u.info, t.tally.failed, u.tally.failed);
    }
  }

  lemma StopParts<S>(t: Table<S>)
    requires Inv(t)
    ensures var v := StopAll(t);
      && v.info.Keys == t.info.Keys && v.tally.failed == t.tally.failed
      && (forall s <- t.info :: !v.info[s].open && v.info[s].reports == t.info[s].reports)
  {
    hide ReportedOnce;
    StopKeeps(t);
  }

  lemma OpenAreRegistered<S>(t: Table<S>)
    requires Inv(t)
    ensures forall k <- t.mapped :: t.mapped[k] in t.info && t.info[t.mapped[k]].open
  {
    hide ReportedOnce;
  }

  lemma SameReporters<S>(info: map<S, Info>, after: map<S, Info>, failed: nat, failedAfter: nat)
    requires ReportedOnce(info, failed) && ReportedOnce(after, failedAfter) && info.Keys == after.Keys
    requires forall s <- info :: info[s].reports == after[s].reports
    ensures failed == failedAfter
  {
    assert Reporters(info) == Reporters(after);
  }
}
