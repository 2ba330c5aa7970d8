/**
 The pool object of src/ConnectionPool/ConnectionPool.cpp, whose methods update its maps, its table,
 its scan and its timer in place.  Every event method is shown to be a step of PoolSpec.dfy, so all
 that PoolRuns.dfy proves of runs holds of it.
 */
module ConnectionPoolImpl {
  import opened Wrappers
  import opened PoolSpec
  import opened PoolInvariant

  lemma {:induction false} EarliestExists(rows: map<IpPort, Row>, among: set<IpPort>)
    requires among != {} && among <= Scheduled(rows)
    ensures exists at :: at in among && forall b | b in among :: rows[at].next.value <= rows[b].next.value
    decreases |among|
  {
    var a :| a in among;
    var rest := among - {a};
    if rest == {} {
      assert among == {a};
      assert forall b | b in among :: rows[a].next.value <= rows[b].next.value;
    } else {
      EarliestExists(rows, rest);
      var c :| c in rest && forall b | b in rest :: rows[c].next.value <= rows[b].next.value;
      var m := if rows[a].next.value <= rows[c].next.value then a else c;
      assert forall b | b in among :: b == a || b in rest;
      assert m in among && forall b | b in among :: rows[m].next.value <= rows[b].next.value;
    }
  }

  class ConnectionPool {
    const cfg: Config
    var peers: seq<Peer>
    var ipMap: map<IpPort, PeerId>
    var connected: map<NodeKey, PeerId>
    var scanning: Option<PeerId>
    var timer: Option<int>
    var rows: map<IpPort, Row>
    ghost var log: seq<Entry>

    constructor (cfg: Config, rows: map<IpPort, Row>)
      ensures this.cfg == cfg && this.rows == rows && Init(State()) && Valid()
    {
      this.cfg, this.rows := cfg, rows;
      peers, ipMap, connected, scanning, timer, log := [], map[], map[], None, None, [];
    }

    ghost function State(): Pool
      reads this
    {
      Pool(peers, ipMap, connected, scanning, timer, rows, log)
    }

    ghost predicate Valid()
      reads this
    {
      Inv(cfg, State())
    }

    ////////// Scanning //////////

    method PeerConnect(at: IpPort) returns (result: Option<PeerId>)
      modifies this`peers, this`ipMap
      ensures at in old(ipMap) ==> result == None && State() == old(State())
      ensures at !in old(ipMap) ==> result == Some(|old(peers)|) && State() == Connect(old(State()), at)
    {
      if at in ipMap { return None; }
      result := Some(|peers|);
      ipMap := ipMap[at := |peers|];
      peers := peers + [Peer(Some(at), None, true, false, false)];
    }

    // The query for the next row to scan
    method NextRow() returns (result: Option<IpPort>)
      ensures result.None? ==> Scheduled(rows) == {}
      ensures result.Some? ==> Earliest(rows, result.value)
    {
      var scheduled := set at | at in rows && rows[at].next.Some?;
      if scheduled == {} { return None; }
      EarliestExists(rows, scheduled);
      var at :| at in scheduled && forall b | b in scheduled :: rows[at].next.value <= rows[b].next.value;
      result := Some(at);
    }

    // The row is put off before it is scanned.
    method PutOffRow(at: IpPort, now: int)
      requires at in rows
      modifies this`timer, this`rows, this`log
      ensures State() == PutOff(cfg, old(State()), now, at)
    {
      timer := None;
      var interval := if rows[at].interval < cfg.minInterval then cfg.minInterval else rows[at].interval;
      var next := now + interval;
      log := log + [Scan(at, now, interval)];
      rows := rows[at := Row(Some(next), Wrap32(interval * 2))];
    }

    method ScanRefresh(now: int)
      modifies this`peers, this`ipMap, this`scanning, this`timer, this`rows, this`log
      ensures ScanRefreshes(cfg, old(State()), now, State())
      decreases |Due(rows, now)|
    {
      if scanning.Some? { return; }
      ghost var s := State();
      var row := NextRow();
      if row.None? {
        timer := None;
        return;
      }
      var at := row.value;
      hide Earliest;
      if rows[at].next.value <= now {
        DueShrinks(cfg, rows, now, at);
        PutOffRow(at, now);
        scanning := PeerConnect(at);
        if scanning.None? { ScanRefresh(now); }
      } else {
        timer := rows[at].next;
      }
      assert ScansOrWaits(cfg, s, now, at, State());
    }

    method SavePeer(at: IpPort, now: int) returns (isNew: bool)
      requires Valid()
      modifies this`peers, this`ipMap, this`scanning, this`timer, this`rows, this`log
      ensures isNew <==> at !in old(rows)
      ensures SavesPeer(cfg, old(State()), now, at, State())
      ensures Valid()
    {
      ghost var s := State();
      isNew := at !in rows;
      if isNew {
        rows := rows[at := Row(Some(0), 0)];
        ScanRefresh(now);
      }
      SavesKeeps(cfg, s, now, at, State());
    }

    method ConnectTo(at: IpPort, now: int)
      requires Valid()
      modifies this`peers, this`ipMap, this`scanning, this`timer, this`rows, this`log
      ensures Step(cfg, old(State()), now, Event.ConnectTo(at), State()) && Valid()
    {
      ghost var s := State();
      rows := rows[at := Row(Some(0), 0)];
      log := log + [Requested(at)];
      ScanRefresh(now);
      StepKeeps(cfg, s, now, Event.ConnectTo(at), State());
    }

    method ScanHandler(now: int, stale: bool)
      requires Valid() && (stale || (timer.Some? && timer.value <= now))
      modifies this`peers, this`ipMap, this`scanning, this`timer, this`rows, this`log
      ensures Step(cfg, old(State()), now, Event.ScanHandler(stale), State()) && Valid()
    {
      ghost var s := State();
      if !stale { timer := None; }
      ScanRefresh(now);
      StepKeeps(cfg, s, now, Event.ScanHandler(stale), State());
    }

    ////////// Policy //////////

    method PeerAvailable() returns (result: Option<IpPort>)
      ensures result.Some? ==> result.value in Available(State())
      ensures result.None? ==> Available(State()) == {}
    {
      var free := set at | at in rows && rows[at].next.None? && at !in ipMap;
      if free == {} { return None; }
      var at :| at in free;
      result := Some(at);
    }

    method PolicyLowWater()
      modifies this`peers, this`ipMap
      ensures LowWater(cfg, old(State()), State())
      decreases |Available(State())|
    {
      if |connected| > cfg.lowWater { return; }
      var at := PeerAvailable();
      if at.Some? {
        ghost var s := State();
        AvailableShrinks(s, at.value);
        var result := PeerConnect(at.value);
        assert result.Some?;
        PolicyLowWater();
        assert LowWaterTakes(cfg, s, at.value, State());
      }
    }

    method PolicyHandler(now: int)
      requires Valid()
      modifies this`peers, this`ipMap
      ensures Step(cfg, old(State()), now, PolicyFires, State()) && Valid()
    {
      ghost var s := State();
      PolicyLowWater();
      StepKeeps(cfg, s, now, PolicyFires, State());
    }

    method Start(now: int)
      requires Valid()
      modifies this`peers, this`ipMap, this`scanning, this`timer, this`rows, this`log
      ensures Step(cfg, old(State()), now, Event.Start, State()) && Valid()
    {
      ghost var s := State();
      PolicyLowWater();
      ghost var u := State();
      ScanRefresh(now);
      assert LowWater(cfg, s, u) && ScanRefreshes(cfg, u, now, State());
      StepKeeps(cfg, s, now, Event.Start, State());
    }

    ////////// Peers //////////

    method Accept(now: int) returns (p: PeerId)
      requires Valid()
      modifies this`peers
      ensures Step(cfg, old(State()), now, Event.Accept, State()) && Valid() && p == |old(peers)|
    {
      ghost var s := State();
      p := |peers|;
      peers := peers + [Peer(None, None, false, false, false)];
      StepKeeps(cfg, s, now, Event.Accept, State());
    }

    method PeerVerified(p: PeerId, now: int)
      requires p < |peers|
      modifies this`peers, this`ipMap, this`scanning, this`timer, this`rows, this`log
      ensures Verifies(cfg, old(State()), now, p, State())
    {
      if scanning == Some(p) {
        var peer := peers[p];
        if peer.node != Some(cfg.self) && peer.at.Some? && peer.at.value in rows {
          log := log + [Verified(peer.at.value)];
          rows := rows[peer.at.value := Row(None, 0)];
        }
        scanning := None;
        ScanRefresh(now);
      }
    }

    method PeerConnected(p: PeerId, key: NodeKey, at: Option<IpPort>) returns (keep: bool)
      requires key in connected ==> connected[key] < |peers|
      modifies this`peers, this`ipMap, this`connected
      ensures (keep, State()) == Connected(cfg, old(State()), p, key, at)
    {
      keep := false;
      if key != cfg.self {
        if key !in connected {
          connected := connected[key := p];
          keep := true;
        } else if at.Some? {
          var known := connected[key];
          if peers[known].at.None? {
            peers := peers[known := peers[known].(at := at)];
            ipMap := ipMap[at.value := known];
          }
        }
      }
    }

    method PeerDisconnected(p: PeerId, key: NodeKey)
      modifies this`connected
      ensures State() == Disconnected(old(State()), p, key)
    {
      if key in connected && connected[key] == p {
        connected := connected - {key};
      }
    }

    method PeerScanSet(at: IpPort, now: int) returns (dirty: bool)
      modifies this`rows
      ensures State() == ScanSet(cfg, old(State()), now, at)
      ensures dirty <==> rows != old(rows)
    {
      dirty := at in rows && rows[at].next.None?;
      if dirty {
        rows := rows[at := Row(Some(now + cfg.minInterval), cfg.minInterval)];
        assert rows[at] != old(rows)[at];
      }
    }

    method PeerClosed(p: PeerId, at: IpPort, now: int)
      modifies this`peers, this`ipMap, this`scanning, this`timer, this`rows, this`log
      ensures Closes(cfg, old(State()), now, p, at, State())
    {
      var refresh := scanning == Some(p);
      if refresh { scanning := None; }
      if at in ipMap && ipMap[at] == p {
        ipMap := ipMap - {at};
        var dirty := PeerScanSet(at, now);
        refresh := dirty || refresh;
      }
      if refresh { ScanRefresh(now); }
    }

    // Peer::detach
    method DetachPeer(p: PeerId, now: int)
      requires p < |peers|
      requires InvBut(cfg, State(), p)
      requires peers[p].detaching ==> Settled(State(), p)
      modifies this`peers, this`ipMap, this`connected, this`scanning, this`timer, this`rows, this`log
      ensures Detaches(cfg, old(State()), now, p, State()) && Valid()
    {
      ghost var s := State();
      assert s.scanning == Some(p) ==> peers[p].at.Some?;
      hide Closes, InvBut, Settled;
      if !peers[p].detaching {
        StopPeer(p);
        if peers[p].at.Some? { LeaveAddress(p, now, s); }
      }
      hide Detaches;
      DetachKeeps(cfg, s, now, p, State());
    }

    // Peer::detach, up to the call of peerClosed
    method StopPeer(p: PeerId)
      requires p < |peers| && !peers[p].detaching
      modifies this`peers, this`connected
      ensures State() == StartDetach(old(State()), p)
    {
      var peer := peers[p];
      peers := peers[p := peer.(detaching := true)];
      if peer.node.Some? {
        PeerDisconnected(p, peer.node.value);
        peers := peers[p := peers[p].(node := None)];
      }
    }

    // Peer::detach, from the call of peerClosed on; it began in state `s`
    method LeaveAddress(p: PeerId, now: int, ghost s: Pool)
      requires p < |s.peers| && InvBut(cfg, s, p) && !s.peers[p].detaching && s.peers[p].at.Some?
      requires State() == StartDetach(s, p)
      modifies this`peers, this`ipMap, this`scanning, this`timer, this`rows, this`log
      ensures Detaches(cfg, s, now, p, State())
    {
      hide Closes, InvBut;
      ghost var s1 := State();
      var at := peers[p].at.value;
      PeerClosed(p, at, now);
      ghost var u := State();
      ClosesKeeps(cfg, s, s1, now, p, at, u);
      peers := peers[p := peers[p].(at := None)];
      assert Closes(cfg, s1, now, p, at, u) && State() == SetPeer(u, p, u.peers[p].(at := None));
    }

    method Detach(p: PeerId, now: int)
      requires Valid() && p < |peers|
      modifies this`peers, this`ipMap, this`connected, this`scanning, this`timer, this`rows, this`log
      ensures Step(cfg, old(State()), now, Event.Detach(p), State()) && Valid()
    {
      assert Settled(State(), p);
      DetachPeer(p, now);
    }

    // The hello of a peer that proved its key; `guess` is where an inbound peer may be reached.
    method Hello(p: PeerId, key: NodeKey, guess: IpPort, now: int)
      requires Valid() && p < |peers| && !peers[p].detaching && !peers[p].helloed
      modifies this`peers, this`ipMap, this`connected, this`scanning, this`timer, this`rows, this`log
      ensures Step(cfg, old(State()), now, HelloFrom(p, key, guess), State()) && Valid()
    {
      hide Verifies, Greets, Inv;
      ghost var s := State();
      var client := peers[p].client;
      peers := peers[p := peers[p].(node := Some(key))];
      ghost var s1 := State();
      if client { PeerVerified(p, now); }
      ghost var s2 := State();
      VerifiesKeeps(cfg, s, s1, now, p, key, s2);
      Greet(p, key, guess, now);
      assert (if client then Verifies(cfg, s1, now, p, s2) else s2 == s1)
             && p < |s2.peers| && Greets(cfg, s2, now, p, key, guess, State());
    }

    method Greet(p: PeerId, key: NodeKey, guess: IpPort, now: int)
      requires Greeting(cfg, State(), p, key)
      modifies this`peers, this`ipMap, this`connected, this`scanning, this`timer, this`rows, this`log
      ensures Greets(cfg, old(State()), now, p, key, guess, State()) && Valid()
    {
      hide Detaches, SavesPeer;
      ghost var s := State();
      var keep := PeerConnected(p, key, peers[p].at);
      ghost var s1 := State();
      if keep {
        var client := peers[p].client;
        peers := peers[p := peers[p].(client := false, helloed := true)];
        AcceptedKeeps(cfg, s, p, key, State());
        if !client {
          var _ := SavePeer(guess, now);
        }
      } else {
        peers := peers[p := peers[p].(node := None)];
        RefusedKeeps(cfg, s, p, key, State());
        DetachPeer(p, now);
      }
    }
  }
}
