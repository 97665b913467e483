/** The discovery object of UdpDiscovery.h, tied to PeerTable. */
module UdpDiscoveries {
  import opened Protocol
  import opened PeerTable

  class UdpDiscovery {
    var myPublicKey: string           // my_public_key_
    var running: bool                 // running_
    var peers: map<Ip, PeerInfo>      // peers_
    // Receives on the socket, which is open exactly while running.
    var waiting: nat                  // async_receive_from calls without a result
    var received: nat                 // handlers still to run with a datagram ...
    var failed: nat                   // ... and with an error
    // Waits on timeout_timer_.
    var armed: nat                    // async_wait calls that have not ended
    var expired: nat                  // handlers still to run because time is up ...
    var cancelled: nat                // ... and because the wait was cancelled
    ghost var log: seq<Notice>        // calls of on_peer_found_ and on_peer_lost_

    ghost function Model(): Discovery
      reads this
    {
      Discovery(myPublicKey, running, waiting, received, failed, peers, log)
    }

    constructor ()
      ensures Model() == Discovery("", false, 0, 0, 0, map[], []) && armed == expired == cancelled == 0
    {
      myPublicKey, running, peers, log := "", false, map[], [];
      waiting, received, failed := 0, 0, 0;
      armed, expired, cancelled := 0, 0, 0;
    }

    /** Starting again after a stop keeps the table; the socket cannot be
        opened twice. */
    method Start(publicKey: string)
      requires !running
      modifies this
      ensures Model() == PeerTable.Start(old(Model()), publicKey)
      ensures armed == 1 && cancelled == old(cancelled) + old(armed) && expired == old(expired)
    {
      myPublicKey := publicKey;
      running := true;
      DoReceive();
      ScheduleTimeoutCheck();
    }

    /** Cancels the timer and closes the socket: whatever waits on either will
        be handled as an error, what had already happened as a success. */
    method Stop()
      modifies this`running, this`waiting, this`failed, this`armed, this`cancelled
      ensures Model() == PeerTable.Stop(old(Model()))
      ensures armed == 0 && cancelled == old(cancelled) + old(armed)
    {
      running := false;
      CancelTimer();
      waiting, failed := 0, failed + waiting;
    }

    method CancelTimer()
      modifies this`armed, this`cancelled
      ensures armed == 0 && cancelled == old(cancelled) + old(armed)
    {
      armed, cancelled := 0, cancelled + armed;
    }

    /** Setting a new expiry time cancels the waits there are. */
    method ScheduleTimeoutCheck()
      modifies this`armed, this`cancelled
      ensures armed == if running then 1 else old(armed)
      ensures cancelled == old(cancelled) + if running then old(armed) else 0
    {
      if !running {
        return;
      }
      CancelTimer();
      armed := armed + 1;
    }

    method DoReceive()
      modifies this`waiting
      ensures Model() == PeerTable.DoReceive(old(Model()))
    {
      if !running {
        return;
      }
      waiting := waiting + 1;
    }

    method OnReceiveError()
      requires failed > 0
      modifies this`waiting, this`failed
      ensures forall t :: Model() == Apply(old(Model()), ReceiveError(t))
    {
      failed := failed - 1;
      if running {
        DoReceive();
      }
    }

    /** Completion handler of a receive; a datagram that does not parse is None. */
    method OnReceive(now: Time, ip: Ip, parsed: Option<Beacon>)
      requires received > 0
      modifies this`waiting, this`received, this`peers, this`log
      ensures Model() == Apply(old(Model()), Datagram(now, ip, parsed))
      ensures parsed.Some? && (parsed.value.publicKey != myPublicKey || myPublicKey == "") ==>
        && ip in peers && peers[ip] == PeerInfo(ip, parsed.value, now)
        && log == old(log) + [Found(PeerInfo(ip, parsed.value, now), ip !in old(peers))]
      ensures parsed.None? || (parsed.value.publicKey == myPublicKey && myPublicKey != "") ==>
        peers == old(peers) && log == old(log)
    {
      received := received - 1;
      if parsed.Some? {
        var info := PeerInfo(ip, parsed.value, now);
        if info.beacon.publicKey == myPublicKey && !(myPublicKey == "") {
          DoReceive();
          return;
        }
        var isNew := info.ip !in peers;
        peers := peers[info.ip := info];
        log := log + [Found(info, isNew)];
      }
      DoReceive();
    }

    /** Erases stale entries while walking the table, in whatever order the
        table is walked: what is kept is kept unchanged, and `lost` lists the
        stale addresses, each once. */
    method EraseStale(now: Time) returns (lost: seq<Ip>)
      modifies this`peers
      ensures peers == old(peers) - Stale(old(peers), now)
      ensures Enumerates(lost, Stale(old(peers), now))
    {
      lost := [];
      var ahead := peers.Keys;      // entries the iterator has not reached
      while ahead != {}
        invariant ahead <= peers.Keys <= old(peers).Keys
        invariant forall ip <- peers :: peers[ip] == old(peers)[ip]
        invariant forall ip <- old(peers) :: ip !in peers <==> ip in lost
        invariant forall ip <- peers :: ip in ahead || !IsStale(peers[ip], now)
        invariant forall ip <- lost :: ip in old(peers) && IsStale(old(peers)[ip], now)
        invariant forall i, j :: 0 <= i < j < |lost| ==> lost[i] != lost[j]
      {
        var ip :| ip in ahead;
        ahead := ahead - {ip};
        if now - peers[ip].lastSeen > PEER_TIMEOUT {
          lost := lost + [ip];
          peers := peers - {ip};
        }
      }
    }

    method CheckTimeouts(now: Time) returns (lost: seq<Ip>)
      modifies this`peers, this`log
      ensures if running then Enumerates(lost, Stale(old(peers), now)) else lost == []
      ensures Model() == if running then Sweep(old(Model()), now, lost) else old(Model())
    {
      lost := [];
      if !running {
        return;
      }
      lost := EraseStale(now);
      var i := 0;
      assert log + LostNotices(lost[..0]) == log;
      while i < |lost|
        invariant 0 <= i <= |lost|
        invariant log == old(log) + LostNotices(lost[..i])
        invariant peers == old(peers) - Stale(old(peers), now)
      {
        log := log + [Lost(lost[i])];
        i := i + 1;
        assert LostNotices(lost[..i]) == LostNotices(lost[..i - 1]) + [Lost(lost[i - 1])];
      }
      assert lost[..i] == lost;
    }

    /** A snapshot of the table: every entry, in the order of the walk. */
    method Peers() returns (result: seq<PeerInfo>)
      ensures |result| == |peers.Keys|
      ensures forall ip <- peers :: peers[ip] in result
      ensures forall info <- result :: info in peers.Values
    {
      result := [];
      var ahead := peers.Keys;
      while ahead != {}
        invariant ahead <= peers.Keys && |result| == |peers.Keys| - |ahead|
        invariant forall ip <- peers :: ip in ahead || peers[ip] in result
        invariant forall info <- result :: info in peers.Values
      {
        var ip :| ip in ahead;
        ahead := ahead - {ip};
        result := result + [peers[ip]];
      }
    }

    /** Completion handler of a wait that ended because time was up or because
        it was cancelled. */
    method OnTimer(now: Time, aborted: bool) returns (lost: seq<Ip>)
      requires if aborted then cancelled > 0 else expired > 0
      modifies this`peers, this`log, this`armed, this`expired, this`cancelled
      ensures if !aborted && running then Enumerates(lost, Stale(old(peers), now)) else lost == []
      ensures var sweeps := !aborted && running;
        && Model() == (if sweeps then Apply(old(Model()), SweepAt(now, lost)) else old(Model()))
        && armed == (if sweeps then 1 else old(armed))
        && armed + expired + cancelled == old(armed + expired + cancelled) - (if sweeps then 0 else 1)
    {
      lost := [];
      if aborted {
        cancelled := cancelled - 1;
      } else {
        expired := expired - 1;
        if running {
          lost := CheckTimeouts(now);
          ScheduleTimeoutCheck();
        }
      }
    }
  }
}
