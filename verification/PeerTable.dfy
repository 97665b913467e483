/** The peer table of UdpDiscovery.cpp as a value, over all runs of beacons,
    sweeps and a stop, with an integer clock. A beacon arrives decoded; a
    datagram that does not parse is `None`.

    A receive waits on the socket until a datagram arrives or it fails; its
    handler runs later. Closing the socket makes the waiting ones fail. */
module PeerTable {
  import opened Protocol

  type Ip = string
  type Time = int

  const PEER_TIMEOUT: Time := 15000   // milliseconds

  datatype Beacon = Beacon(username: string, port: nat, version: string, publicKey: string)

  datatype PeerInfo = PeerInfo(ip: Ip, beacon: Beacon, lastSeen: Time)

  /** Calls of the two callbacks. */
  datatype Notice = Found(info: PeerInfo, isNew: bool) | Lost(ip: Ip)

  datatype Discovery = Discovery(
    myKey: string,
    running: bool,
    waiting: nat,               // receives waiting on the socket
    received: nat,              // receives with a datagram, not yet handled
    failed: nat,                // receives that failed, not yet handled
    peers: map<Ip, PeerInfo>,
    log: seq<Notice>)

  /** The socket is opened and the first receive started; the table stays as it was. */
  function Start(d: Discovery, myKey: string): Discovery {
    d.(myKey := myKey, running := true, waiting := d.waiting + 1)
  }

  function Started(myKey: string): Discovery {
    Start(Discovery("", false, 0, 0, 0, map[], []), myKey)
  }

  /** The socket is closed under the receives that wait on it. */
  function Stop(d: Discovery): Discovery {
    d.(running := false, waiting := 0, failed := d.failed + d.waiting)
  }

  // ----- handlers -----------------------------------------------------------

  predicate IsOwn(myKey: string, b: Beacon) {
    b.publicKey == myKey && myKey != ""
  }

  function DoReceive(d: Discovery): Discovery {
    if d.running then d.(waiting := d.waiting + 1) else d
  }

  function Insert(d: Discovery, info: PeerInfo): Discovery {
    d.(peers := d.peers[info.ip := info], log := d.log + [Found(info, info.ip !in d.peers)])
  }

  /** The success path of the handler does not look at `running`. */
  function Receive(d: Discovery, now: Time, ip: Ip, parsed: Option<Beacon>): Discovery
    requires d.received > 0
  {
    var e := d.(received := d.received - 1);
    match parsed
    case None => DoReceive(e)
    case Some(b) =>
      if IsOwn(d.myKey, b) then DoReceive(e)
      else DoReceive(Insert(e, PeerInfo(ip, b, now)))
  }

  predicate IsStale(info: PeerInfo, now: Time) {
    now - info.lastSeen > PEER_TIMEOUT
  }

  function Stale(peers: map<Ip, PeerInfo>, now: Time): set<Ip> {
    set ip | ip in peers && IsStale(peers[ip], now)
  }

  /** `order` lists a set, each element once, in some order. */
  predicate Enumerates(order: seq<Ip>, s: set<Ip>) {
    && (forall i, j :: 0 <= i < j < |order| ==> order[i] != order[j])
    && (forall ip <- order :: ip in s)
    && (forall ip <- s :: ip in order)
  }

  function LostNotices(lost: seq<Ip>): seq<Notice> {
    seq(|lost|, i requires 0 <= i < |lost| => Lost(lost[i]))
  }

  function Sweep(d: Discovery, now: Time, lost: seq<Ip>): Discovery {
    d.(peers := d.peers - Stale(d.peers, now), log := d.log + LostNotices(lost))
  }

  // ----- runs ---------------------------------------------------------------

  datatype Event =
    | Arrival(t: Time)                   // a datagram completes a waiting receive
    | Breakdown(t: Time)                 // a waiting receive fails
    | Datagram(t: Time, ip: Ip, parsed: Option<Beacon>)  // the handler of a completed receive
    | ReceiveError(t: Time)              // the handler of a failed one
    | SweepAt(t: Time, lost: seq<Ip>)    // `lost` is the order the hash table is walked in
    | StopAt(t: Time)
    | Tick(t: Time)                      // time passes

  predicate Enabled(d: Discovery, e: Event) {
    match e
    case Arrival(t) => d.waiting > 0
    case Breakdown(t) => d.waiting > 0
    case Datagram(t, ip, parsed) => d.received > 0
    case ReceiveError(t) => d.failed > 0
    case SweepAt(t, lost) => d.running && Enumerates(lost, Stale(d.peers, t))
    case _ => true
  }

  function Apply(d: Discovery, e: Event): Discovery
    requires Enabled(d, e)
  {
    match e
    case Arrival(t) => d.(waiting := d.waiting - 1, received := d.received + 1)
    case Breakdown(t) => d.(waiting := d.waiting - 1, failed := d.failed + 1)
    case Datagram(t, ip, parsed) => Receive(d, t, ip, parsed)
    case ReceiveError(t) => DoReceive(d.(failed := d.failed - 1))
    case SweepAt(t, lost) => Sweep(d, t, lost)
    case StopAt(t) => Stop(d)
    case Tick(t) => d
  }

  function Init<T>(s: seq<T>): seq<T>
    requires s != []
  {
    s[..|s| - 1]
  }

  function Last<T>(s: seq<T>): T
    requires s != []
  {
    s[|s| - 1]
  }

  predicate Legal(d: Discovery, es: seq<Event>)
    decreases |es|, 0
  {
    es == [] || (Legal(d, Init(es)) && Enabled(Exec(d, Init(es)), Last(es)))
  }

  function Exec(d: Discovery, es: seq<Event>): Discovery
    requires Legal(d, es)
    decreases |es|, 1
  {
    if es == [] then d else Apply(Exec(d, Init(es)), Last(es))
  }

  // ----- the table and its history ------------------------------------------

  predicate Accepts(myKey: string, e: Event, ip: Ip) {
    && e.Datagram? && e.ip == ip && e.parsed.Some?
    && (e.parsed.value.publicKey != myKey || myKey == "")
  }

  function Recorded(e: Event): PeerInfo
    requires e.Datagram? && e.parsed.Some?
  {
    PeerInfo(e.ip, e.parsed.value, e.t)
  }

  predicate Outdates(e: Event, heard: Time) {
    e.SweepAt? && e.t - heard > PEER_TIMEOUT
  }

  /** Event i is the latest accepted beacon of `ip`, and no sweep since found it outdated. */
  ghost predicate Current(myKey: string, es: seq<Event>, ip: Ip, i: int) {
    && 0 <= i < |es|
    && Accepts(myKey, es[i], ip)
    && (forall j :: i < j < |es| ==> !Accepts(myKey, es[j], ip) && !Outdates(es[j], es[i].t))
  }

  /** One more datagram: a foreign beacon is recorded as it is and announced, as
      new exactly if the address was not known; an own one, recognised by its
      whole key, and one that does not parse change nothing. */
  lemma BeaconIsRecorded(myKey: string, es: seq<Event>, t: Time, ip: Ip, parsed: Option<Beacon>)
    requires Legal(Started(myKey), es) && Enabled(Exec(Started(myKey), es), Datagram(t, ip, parsed))
    ensures var d := Exec(Started(myKey), es); var u := Apply(d, Datagram(t, ip, parsed));
      if parsed.Some? && (parsed.value.publicKey != myKey || myKey == "") then
        var info := PeerInfo(ip, parsed.value, t);
        u.peers == d.peers[ip := info] && u.log == d.log + [Found(info, ip !in d.peers)]
      else
        u.peers == d.peers && u.log == d.log
  {
    KeyStays(myKey, es);
  }

  lemma {:induction false} KeyStays(myKey: string, es: seq<Event>)
    requires Legal(Started(myKey), es)
    ensures Exec(Started(myKey), es).myKey == myKey
    decreases |es|
  {
    if es != [] {
      KeyStays(myKey, Init(es));
    }
  }

  /** What the client has been told about peers found, in order. */
  function Announced(log: seq<Notice>): seq<PeerInfo> {
    if log == [] then []
    else Announced(Init(log)) + if Last(log).Found? then [Last(log).info] else []
  }

  /** The beacons of other nodes in a run, in order. */
  function Heard(myKey: string, es: seq<Event>): seq<PeerInfo> {
    if es == [] then []
    else
      var e := Last(es);
      Heard(myKey, Init(es)) + if e.Datagram? && Accepts(myKey, e, e.ip) then [Recorded(e)] else []
  }

  lemma {:induction false} LossesAnnounceNothing(log: seq<Notice>, lost: seq<Ip>)
    ensures Announced(log + LostNotices(lost)) == Announced(log)
    decreases |lost|
  {
    if lost == [] {
      assert log + LostNotices(lost) == log;
    } else {
      var all := log + LostNotices(lost);
      assert Init(all) == log + LostNotices(Init(lost)) && Last(all) == Lost(Last(lost));
      LossesAnnounceNothing(log, Init(lost));
    }
  }

  /** Over every run the client hears of every beacon of another node, of each
      exactly once, in order, whether the peer is new or not. */
  lemma {:induction false} EveryBeaconIsAnnounced(myKey: string, es: seq<Event>)
    requires Legal(Started(myKey), es)
    ensures Announced(Exec(Started(myKey), es).log) == Heard(myKey, es)
    decreases |es|
  {
    if es != [] {
      var d, e := Exec(Started(myKey), Init(es)), Last(es);
      EveryBeaconIsAnnounced(myKey, Init(es));
      KeyStays(myKey, Init(es));
      AnnounceStep(d, e);
    }
  }

  lemma {:induction false} AnnounceStep(d: Discovery, e: Event)
    requires Enabled(d, e)
    ensures Announced(Apply(d, e).log) ==
      Announced(d.log) + if e.Datagram? && Accepts(d.myKey, e, e.ip) then [Recorded(e)] else []
  {
    assert Announced(d.log) + [] == Announced(d.log);
    match e {
      case SweepAt(t, lost) => LossesAnnounceNothing(d.log, lost);
      case Datagram(t, ip, parsed) =>
        if Accepts(d.myKey, e, ip) {
          var u := Apply(d, e).log;
          assert Init(u) == d.log && Last(u) == Found(Recorded(e), ip !in d.peers);
        }
      case _ =>
    }
  }

  lemma OneStep(d: Discovery, e: Event, ip: Ip)
    requires Enabled(d, e)
    ensures Apply(d, e).myKey == d.myKey
    ensures var p := Apply(d, e).peers;
      if Accepts(d.myKey, e, ip) then ip in p && p[ip] == Recorded(e)
      else if e.SweepAt? && ip in d.peers && IsStale(d.peers[ip], e.t) then ip !in p
      else (ip in p <==> ip in d.peers) && (ip in p ==> p[ip] == d.peers[ip])
  {
  }

  /** After any run the table maps an address exactly when its latest accepted
      beacon has not been outdated by a later sweep, and then to the content
      of that very beacon. */
  lemma {:induction false} AgreesWithHistory(myKey: string, es: seq<Event>, ip: Ip)
    requires Legal(Started(myKey), es)
    ensures var d := Exec(Started(myKey), es);
      && d.myKey == myKey
      && (ip in d.peers <==> exists i :: Current(myKey, es, ip, i))
      && (forall i :: Current(myKey, es, ip, i) ==> d.peers[ip] == Recorded(es[i]))
    decreases |es|
  {
    if es != [] {
      var fs, e := Init(es), Last(es);
      var d := Exec(Started(myKey), fs);
      AgreesWithHistory(myKey, fs, ip);
      OneStep(d, e, ip);
      if Accepts(myKey, e, ip) {
        assert Current(myKey, es, ip, |es| - 1);
      } else {
        forall i ensures Current(myKey, es, ip, i) <==> Current(myKey, fs, ip, i) && !Outdates(e, es[i].t) {
          CurrentSnoc(myKey, es, ip, i);
        }
      }
    }
  }

  lemma CurrentSnoc(myKey: string, es: seq<Event>, ip: Ip, i: int)
    requires es != [] && !Accepts(myKey, Last(es), ip)
    ensures Current(myKey, es, ip, i) <==> Current(myKey, Init(es), ip, i) && !Outdates(Last(es), es[i].t)
  {
    var fs := Init(es);
    if Current(myKey, es, ip, i) {
      assert i != |es| - 1;
      assert forall j :: i < j < |fs| ==> fs[j] == es[j];
    }
    if Current(myKey, fs, ip, i) && !Outdates(Last(es), es[i].t) {
      forall j | i < j < |es| ensures !Accepts(myKey, es[j], ip) && !Outdates(es[j], es[i].t) {
        if j < |fs| {
          assert fs[j] == es[j];
        }
      }
    }
  }

  /** Our own non-empty key is never in the table. */
  lemma NeverOneself(myKey: string, es: seq<Event>, ip: Ip)
    requires Legal(Started(myKey), es) && myKey != ""
    ensures var p := Exec(Started(myKey), es).peers; ip in p ==> p[ip].beacon.publicKey != myKey && p[ip].ip == ip
  {
    AgreesWithHistory(myKey, es, ip);
    var p := Exec(Started(myKey), es).peers;
    if ip in p {
      var i :| Current(myKey, es, ip, i);
      assert p[ip] == Recorded(es[i]);
    }
  }

  // ----- no false eviction --------------------------------------------------

  /** After every accepted beacon of `ip`, each event up to and including the
      next accepted beacon comes within the timeout: consecutive beacons are at
      most 15 s apart and the run does not outlive the last one by more. */
  ghost predicate Punctual(myKey: string, es: seq<Event>, ip: Ip) {
    forall k, j :: 0 <= k < j < |es| && Accepts(myKey, es[k], ip) && SilentBetween(myKey, es, ip, k, j) ==>
      es[j].t - es[k].t <= PEER_TIMEOUT
  }

  ghost predicate SilentBetween(myKey: string, es: seq<Event>, ip: Ip, k: int, j: int)
    requires 0 <= k < j < |es|
  {
    forall l :: k < l < j ==> !Accepts(myKey, es[l], ip)
  }

  function LatestBeacon(myKey: string, es: seq<Event>, ip: Ip): (i: int)
    ensures -1 <= i < |es|
    ensures i >= 0 ==> Accepts(myKey, es[i], ip)
    ensures forall j :: i < j < |es| ==> !Accepts(myKey, es[j], ip)
  {
    if es == [] then -1
    else if Accepts(myKey, Last(es), ip) then |es| - 1
    else LatestBeacon(myKey, Init(es), ip)
  }

  /** A peer whose beacons keep coming in time is in the table at every moment
      after the first one, with its latest content, and is never reported lost. */
  lemma {:induction false} NoFalseEviction(myKey: string, es: seq<Event>, ip: Ip)
    requires Legal(Started(myKey), es) && Punctual(myKey, es, ip)
    ensures var d, i := Exec(Started(myKey), es), LatestBeacon(myKey, es, ip);
      && (i >= 0 ==> ip in d.peers && d.peers[ip] == Recorded(es[i]))
      && (i < 0 ==> ip !in d.peers)
      && Lost(ip) !in d.log
    decreases |es|
  {
    if es != [] {
      var fs, e := Init(es), Last(es);
      var d, i := Exec(Started(myKey), fs), LatestBeacon(myKey, fs, ip);
      PunctualInit(myKey, es, ip);
      NoFalseEviction(myKey, fs, ip);
      AgreesWithHistory(myKey, fs, ip);
      OneStep(d, e, ip);
      if i >= 0 {
        assert SilentBetween(myKey, es, ip, i, |es| - 1);
        assert e.t - es[i].t <= PEER_TIMEOUT;
      }
      StepLog(d, e, ip);
    }
  }

  lemma PunctualInit(myKey: string, es: seq<Event>, ip: Ip)
    requires es != [] && Punctual(myKey, es, ip)
    ensures Punctual(myKey, Init(es), ip)
  {
    var fs := Init(es);
    forall k, j | 0 <= k < j < |fs| && Accepts(myKey, fs[k], ip) && SilentBetween(myKey, fs, ip, k, j)
      ensures fs[j].t - fs[k].t <= PEER_TIMEOUT
    {
      assert fs[j] == es[j] && fs[k] == es[k];
      forall l | k < l < j ensures !Accepts(myKey, es[l], ip) {
        assert fs[l] == es[l];
      }
      assert SilentBetween(myKey, es, ip, k, j);
    }
  }

  /** A step reports `ip` lost exactly when a sweep finds its entry stale. */
  lemma StepLog(d: Discovery, e: Event, ip: Ip)
    requires Enabled(d, e)
    ensures Lost(ip) in Apply(d, e).log <==>
      Lost(ip) in d.log || (e.SweepAt? && ip in d.peers && IsStale(d.peers[ip], e.t))
  {
    if e.SweepAt? {
      var ns := LostNotices(e.lost);
      assert Apply(d, e).log == d.log + ns;
      if ip in e.lost {
        var i :| 0 <= i < |e.lost| && e.lost[i] == ip;
        assert ns[i] == Lost(ip);
      }
      if Lost(ip) in ns {
        var i :| 0 <= i < |ns| && ns[i] == Lost(ip);
        assert e.lost[i] == ip;
      }
    }
  }

  /** A sweep comes more than the timeout after the latest beacon of `ip`. */
  ghost predicate Late(myKey: string, es: seq<Event>, ip: Ip, k: int, j: int) {
    && 0 <= k < j < |es|
    && Accepts(myKey, es[k], ip) && SilentBetween(myKey, es, ip, k, j)
    && Outdates(es[j], es[k].t)
  }

  lemma LateSnoc(myKey: string, es: seq<Event>, ip: Ip, k: int, j: int)
    requires es != [] && j < |es| - 1
    ensures Late(myKey, es, ip, k, j) <==> Late(myKey, Init(es), ip, k, j)
  {
    var fs := Init(es);
    if 0 <= k < j {
      assert fs[k] == es[k] && fs[j] == es[j];
      assert forall l :: k < l < j ==> fs[l] == es[l];
    }
  }

  /** The last sweep of a run is late for `ip`: it finds the entry stale, or an
      earlier one has found it so. */
  lemma LateSweepFinds(myKey: string, es: seq<Event>, ip: Ip, k: int)
    requires Legal(Started(myKey), es) && es != [] && Late(myKey, es, ip, k, |es| - 1)
    ensures var d := Exec(Started(myKey), Init(es));
      (ip in d.peers && IsStale(d.peers[ip], Last(es).t)) || exists j :: Late(myKey, Init(es), ip, k, j)
  {
    var fs := Init(es);
    assert fs[k] == es[k];
    AgreesWithHistory(myKey, fs, ip);
    if !Current(myKey, fs, ip, k) {
      assert forall j :: k < j < |fs| ==> fs[j] == es[j] && !Accepts(myKey, fs[j], ip);
      var j :| k < j < |fs| && Outdates(fs[j], fs[k].t);
      LateSnoc(myKey, es, ip, k, j);
      assert Late(myKey, es, ip, k, j);
    }
  }

  lemma StaleIsLate(myKey: string, es: seq<Event>, ip: Ip)
    requires Legal(Started(myKey), es) && es != [] && Last(es).SweepAt?
    requires var d := Exec(Started(myKey), Init(es)); ip in d.peers && IsStale(d.peers[ip], Last(es).t)
    ensures exists k, j :: Late(myKey, es, ip, k, j)
  {
    var fs := Init(es);
    AgreesWithHistory(myKey, fs, ip);
    var k :| Current(myKey, fs, ip, k);
    assert forall j :: k <= j < |fs| ==> fs[j] == es[j];
    assert Late(myKey, es, ip, k, |es| - 1);
  }

  /** The bound is tight, in every run: a peer is reported lost if and only if
      some sweep comes more than 15 s after its latest beacon until then. One
      that comes exactly 15 s after it never evicts. */
  lemma {:induction false} LostIffLate(myKey: string, es: seq<Event>, ip: Ip)
    requires Legal(Started(myKey), es)
    ensures Lost(ip) in Exec(Started(myKey), es).log <==> exists k, j :: Late(myKey, es, ip, k, j)
    decreases |es|
  {
    hide Late;
    if es == [] {
      NeverLate(myKey, ip);
    } else {
      var fs, e := Init(es), Last(es);
      var d := Exec(Started(myKey), fs);
      LostIffLate(myKey, fs, ip);
      StepLog(d, e, ip);
      if Lost(ip) in d.log {
        var k, j :| Late(myKey, fs, ip, k, j);
        LateIsInside(myKey, fs, ip, k, j);
        LateSnoc(myKey, es, ip, k, j);
      } else if e.SweepAt? && ip in d.peers && IsStale(d.peers[ip], e.t) {
        StaleIsLate(myKey, es, ip);
      }
      forall k, j | Late(myKey, es, ip, k, j) ensures Lost(ip) in Exec(Started(myKey), es).log {
        LateIsInside(myKey, es, ip, k, j);
        if j < |es| - 1 {
          LateSnoc(myKey, es, ip, k, j);
        } else {
          LateSweepFinds(myKey, es, ip, k);
        }
      }
    }
  }

  lemma NeverLate(myKey: string, ip: Ip)
    ensures !exists k, j :: Late(myKey, [], ip, k, j)
  {
  }

  lemma LateIsInside(myKey: string, es: seq<Event>, ip: Ip, k: int, j: int)
    requires Late(myKey, es, ip, k, j)
    ensures 0 <= k < j < |es| && es[j].SweepAt?
  {
  }

  /** The timeout in milliseconds: a sweep 15000 ms after the only beacon keeps
      the peer, a sweep 15001 ms after it reports the peer lost. */
  lemma FifteenSeconds(myKey: string, ip: Ip, b: Beacon)
    requires b.publicKey != myKey || myKey == ""
    ensures var es := [Arrival(0), Datagram(0, ip, Some(b))];
      && Legal(Started(myKey), es + [SweepAt(15000, [])]) && Legal(Started(myKey), es + [SweepAt(15001, [ip])])
      && ip in Exec(Started(myKey), es + [SweepAt(15000, [])]).peers
      && ip !in Exec(Started(myKey), es + [SweepAt(15001, [ip])]).peers
      && Lost(ip) in Exec(Started(myKey), es + [SweepAt(15001, [ip])]).log
  {
    var s0 := Started(myKey);
    var e0, e1 := Arrival(0), Datagram(0, ip, Some(b));
    var es := [e0, e1];
    assert Init([e0]) == [] && Init(es) == [e0];
    assert Legal(s0, []) && Exec(s0, []) == s0;
    assert Legal(s0, [e0]) && Exec(s0, [e0]) == Apply(s0, e0);
    assert Legal(s0, es) && Exec(s0, es) == Apply(Apply(s0, e0), e1);
    var d := Exec(s0, es);
    assert d.peers == map[ip := PeerInfo(ip, b, 0)];
    var kept, gone := es + [SweepAt(15000, [])], es + [SweepAt(15001, [ip])];
    assert Init(kept) == es && Init(gone) == es;
    assert Stale(d.peers, 15000) == {} && Stale(d.peers, 15001) == {ip};
    assert Legal(s0, kept) && Legal(s0, gone);
    StepLog(d, SweepAt(15001, [ip]), ip);
  }

  // ----- new-peer and lost-peer events alternate ----------------------------

  predicate About(n: Notice, ip: Ip) {
    match n
    case Found(info, isNew) => info.ip == ip
    case Lost(lost) => lost == ip
  }

  /** What the client believes about `ip` after these notices. */
  function Believed(log: seq<Notice>, ip: Ip): bool {
    if log == [] then false
    else if About(Last(log), ip) then Last(log).Found?
    else Believed(Init(log), ip)
  }

  /** Every new-peer notice comes while the peer is believed absent, every
      refresh and every loss while it is believed present. */
  predicate Alternates(log: seq<Notice>, ip: Ip) {
    log == [] ||
    (Alternates(Init(log), ip) &&
     (About(Last(log), ip) ==> Believed(Init(log), ip) == (Last(log).Lost? || !Last(log).isNew)))
  }

  lemma NoticeSnoc(log: seq<Notice>, n: Notice, ip: Ip)
    requires Alternates(log, ip)
    requires About(n, ip) ==> Believed(log, ip) == (n.Lost? || !n.isNew)
    ensures Alternates(log + [n], ip)
    ensures Believed(log + [n], ip) == if About(n, ip) then n.Found? else Believed(log, ip)
  {
    assert Init(log + [n]) == log;
  }

  lemma {:induction false} LossesAlternate(log: seq<Notice>, lost: seq<Ip>, ip: Ip)
    requires Alternates(log, ip)
    requires ip in lost ==> Believed(log, ip)
    requires forall i, j :: 0 <= i < j < |lost| ==> lost[i] != lost[j]
    ensures Alternates(log + LostNotices(lost), ip)
    ensures Believed(log + LostNotices(lost), ip) == (Believed(log, ip) && ip !in lost)
    decreases |lost|
  {
    if lost == [] {
      assert log + LostNotices(lost) == log;
    } else {
      var n := Lost(Last(lost));
      assert LostNotices(lost) == LostNotices(Init(lost)) + [n];
      assert log + LostNotices(lost) == (log + LostNotices(Init(lost))) + [n];
      assert forall i :: 0 <= i < |lost| - 1 ==> lost[i] != Last(lost);
      assert ip in lost <==> ip in Init(lost) || ip == Last(lost);
      LossesAlternate(log, Init(lost), ip);
      NoticeSnoc(log + LostNotices(Init(lost)), n, ip);
    }
  }

  lemma {:induction false} AlternateStep(d: Discovery, e: Event, ip: Ip)
    requires Enabled(d, e) && Alternates(d.log, ip) && (Believed(d.log, ip) <==> ip in d.peers)
    ensures var u := Apply(d, e); Alternates(u.log, ip) && (Believed(u.log, ip) <==> ip in u.peers)
  {
    hide Alternates, Believed;
    match e {
      case SweepAt(t, lost) => LossesAlternate(d.log, lost, ip);
      case Datagram(t, from, parsed) =>
        if Accepts(d.myKey, e, from) {
          NoticeSnoc(d.log, Found(Recorded(e), from !in d.peers), ip);
        }
      case _ =>
    }
  }

  /** Per address, new-peer and timeout-lost events alternate, starting with a
      new peer, and the table holds exactly the peers last announced. */
  lemma {:induction false} EventsAlternate(myKey: string, es: seq<Event>, ip: Ip)
    requires Legal(Started(myKey), es)
    ensures var d := Exec(Started(myKey), es);
      Alternates(d.log, ip) && (Believed(d.log, ip) <==> ip in d.peers)
    decreases |es|
  {
    if es != [] {
      EventsAlternate(myKey, Init(es), ip);
      AlternateStep(Exec(Started(myKey), Init(es)), Last(es), ip);
    }
  }

  // ----- after stop ---------------------------------------------------------

  function DatagramsIn(es: seq<Event>): nat {
    if es == [] then 0 else DatagramsIn(Init(es)) + (if Last(es).Datagram? then 1 else 0)
  }

  function Outstanding(d: Discovery): nat {
    d.waiting + d.received + d.failed
  }

  /** While discovery runs exactly one receive is outstanding: no datagram,
      however malformed, and no error ever stops it listening. After a stop
      none waits on the socket. */
  lemma {:induction false} AlwaysListening(myKey: string, es: seq<Event>)
    requires Legal(Started(myKey), es)
    ensures var d := Exec(Started(myKey), es);
      if d.running then Outstanding(d) == 1 else Outstanding(d) <= 1 && d.waiting == 0
    decreases |es|
  {
    if es != [] {
      AlwaysListening(myKey, Init(es));
    }
  }

  /** Once stopped, no sweep runs and only datagrams that had arrived before
      are handled: at most one, and if there is none nothing changes any more. */
  lemma {:induction false} AfterStop(d: Discovery, es: seq<Event>)
    requires Legal(d, es) && !d.running && d.waiting == 0
    ensures var u := Exec(d, es);
      && !u.running && u.waiting == 0 && u.received + DatagramsIn(es) == d.received
      && d.peers.Keys <= u.peers.Keys
      && |u.log| <= |d.log| + DatagramsIn(es)
      && (d.received == 0 ==> u.peers == d.peers && u.log == d.log)
    decreases |es|
  {
    if es != [] {
      AfterStop(d, Init(es));
    }
  }

  /** Over every run from the start that is stopped: at most one more datagram is
      handled, and none if none had arrived. */
  lemma AfterStopFromStart(myKey: string, es: seq<Event>, fs: seq<Event>)
    requires Legal(Started(myKey), es) && !Exec(Started(myKey), es).running
    requires Legal(Exec(Started(myKey), es), fs)
    ensures var d := Exec(Started(myKey), es); var u := Exec(d, fs);
      && DatagramsIn(fs) <= d.received <= 1
      && !u.running && d.peers.Keys <= u.peers.Keys
      && (d.received == 0 ==> u.peers == d.peers && u.log == d.log)
  {
    hide Legal, Exec;
    AlwaysListening(myKey, es);
    AfterStop(Exec(Started(myKey), es), fs);
  }

  /** A datagram that had arrived when discovery was stopped can still announce
      a peer, and nothing will ever evict it. */
  lemma LateBeacon(d: Discovery, t: Time, ip: Ip, b: Beacon, es: seq<Event>)
    requires !d.running && d.waiting == 0 && d.received > 0 && !IsOwn(d.myKey, b)
    requires Legal(Receive(d, t, ip, Some(b)), es)
    ensures Enabled(d, Datagram(t, ip, Some(b)))
    ensures ip in Exec(Receive(d, t, ip, Some(b)), es).peers
  {
    AfterStop(Receive(d, t, ip, Some(b)), es);
  }

  /** It happens in a run from the start: the datagram arrives, discovery is
      stopped, the handler runs. */
  lemma LateBeaconRun(myKey: string, ip: Ip, b: Beacon)
    requires !IsOwn(myKey, b)
    ensures var es := [Arrival(0), StopAt(1)]; var fs := es + [Datagram(2, ip, Some(b))];
      && Legal(Started(myKey), fs)
      && !Exec(Started(myKey), es).running && ip !in Exec(Started(myKey), es).peers
      && ip in Exec(Started(myKey), fs).peers
  {
    var s0 := Started(myKey);
    var e1, e2, e3 := Arrival(0), StopAt(1), Datagram(2, ip, Some(b));
    assert Init([e1]) == [] && Init([e1, e2]) == [e1] && Init([e1, e2] + [e3]) == [e1, e2];
    assert Legal(s0, []) && Exec(s0, []) == s0;
    assert Legal(s0, [e1]) && Exec(s0, [e1]) == Apply(s0, e1);
    assert Legal(s0, [e1, e2]) && Exec(s0, [e1, e2]) == Stop(Apply(s0, e1));
    assert Legal(s0, [e1, e2] + [e3]);
  }

  // ----- staleness ----------------------------------------------------------

  /** When the sweep timer was last armed to go off, as far as the run tells. */
  function Due(start: Time, es: seq<Event>): Time {
    if es == [] then start + PEER_TIMEOUT
    else if Last(es).SweepAt? then Last(es).t + PEER_TIMEOUT
    else Due(start, Init(es))
  }

  function Now(start: Time, es: seq<Event>): Time {
    if es == [] then start else Last(es).t
  }

  /** The clock is monotone, the timer never fires early, and while discovery
      runs nothing happens later than `slack` after a sweep was due. */
  predicate Timed(d: Discovery, start: Time, slack: Time, es: seq<Event>)
    requires Legal(d, es)
    decreases |es|
  {
    es == [] ||
    (var fs, e := Init(es), Last(es);
     && Timed(d, start, slack, fs)
     && Now(start, fs) <= e.t
     && (Exec(d, fs).running ==> e.t <= Due(start, fs) + slack)
     && (e.SweepAt? ==> Due(start, fs) <= e.t))
  }

  /** While discovery runs, no entry is ever older than two timeouts plus the
      slack, and right after a sweep none is older than one. */
  lemma {:induction false} StalenessBound(myKey: string, start: Time, slack: Time, es: seq<Event>, ip: Ip)
    requires Legal(Started(myKey), es) && Timed(Started(myKey), start, slack, es) && slack >= 0
    ensures Due(start, es) <= Now(start, es) + PEER_TIMEOUT
    ensures var d, now := Exec(Started(myKey), es), Now(start, es);
      && (ip in d.peers ==> d.peers[ip].lastSeen <= now)
      && (ip in d.peers && d.running ==>
            && d.peers[ip].lastSeen >= Due(start, es) - 2 * PEER_TIMEOUT
            && now - d.peers[ip].lastSeen <= 2 * PEER_TIMEOUT + slack)
      && (ip in d.peers && es != [] && Last(es).SweepAt? ==> now - d.peers[ip].lastSeen <= PEER_TIMEOUT)
    decreases |es|
  {
    if es != [] {
      StalenessBound(myKey, start, slack, Init(es), ip);
      OneStep(Exec(Started(myKey), Init(es)), Last(es), ip);
    }
  }

  /** The bound is reached: a beacon at the start survives the first sweep by
      being exactly one timeout old, and the second sweep may be late. */
  lemma WorstCaseIsReached(myKey: string, slack: Time, ip: Ip, b: Beacon)
    requires slack >= 0 && !IsOwn(myKey, b)
    ensures var es := [Arrival(0), Datagram(0, ip, Some(b)), SweepAt(PEER_TIMEOUT, []), Tick(2 * PEER_TIMEOUT + slack)];
      && Legal(Started(myKey), es) && Timed(Started(myKey), 0, slack, es)
      && var d := Exec(Started(myKey), es);
      && ip in d.peers && Now(0, es) - d.peers[ip].lastSeen == 2 * PEER_TIMEOUT + slack
  {
    var s0, s := Started(myKey), 2 * PEER_TIMEOUT + slack;
    var e0, e1, e2, e3 := Arrival(0), Datagram(0, ip, Some(b)), SweepAt(PEER_TIMEOUT, []), Tick(s);
    var es1, es2, es3 := [e0, e1], [e0, e1, e2], [e0, e1, e2, e3];
    assert Init([e0]) == [] && Init(es1) == [e0] && Init(es2) == es1 && Init(es3) == es2;
    assert Legal(s0, []) && Exec(s0, []) == s0 && Timed(s0, 0, slack, []) && Due(0, []) == PEER_TIMEOUT;
    assert Legal(s0, [e0]) && Timed(s0, 0, slack, [e0]) && Due(0, [e0]) == PEER_TIMEOUT;
    var s1 := Exec(s0, [e0]);
    assert Legal(s0, es1) && Exec(s0, es1) == Receive(s1, 0, ip, Some(b));
    assert Timed(s0, 0, slack, es1) && Due(0, es1) == PEER_TIMEOUT;
    assert Stale(Exec(s0, es1).peers, PEER_TIMEOUT) == {};
    assert Legal(s0, es2) && Exec(s0, es2) == Sweep(Exec(s0, es1), PEER_TIMEOUT, []);
    assert Timed(s0, 0, slack, es2) && Due(0, es2) == 2 * PEER_TIMEOUT;
    assert Legal(s0, es3) && Exec(s0, es3) == Exec(s0, es2);
  }
}
