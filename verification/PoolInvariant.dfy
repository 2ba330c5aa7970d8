/**
 What every step of the pool keeps.
 */
module PoolInvariant {
  import opened Wrappers
  import opened PoolSpec

  ////////// The two maps agree with the peers //////////

  // A peer that is settled: registered where it says it is, and nowhere once detached.
  ghost predicate Settled(s: Pool, p: PeerId)
    requires p < |s.peers|
  {
    var peer := s.peers[p];
    if peer.detaching then peer.at == None && peer.node == None
    else
      && (peer.at.Some? ==> peer.at.value in s.ipMap && s.ipMap[peer.at.value] == p)
      && (peer.at.Some? && !peer.helloed ==> peer.client)
      && (peer.helloed <==> peer.node.Some?)
      && (peer.helloed ==> peer.node.value in s.connected && s.connected[peer.node.value] == p)
  }

  ghost predicate IpMapOk(s: Pool) {
    forall at | at in s.ipMap ::
      s.ipMap[at] < |s.peers| && !s.peers[s.ipMap[at]].detaching && s.peers[s.ipMap[at]].at == Some(at)
  }

  ghost predicate ConnectedOk(cfg: Config, s: Pool) {
    forall k | k in s.connected ::
      && k != cfg.self && s.connected[k] < |s.peers| && !s.peers[s.connected[k]].detaching
      && s.peers[s.connected[k]].node == Some(k) && s.peers[s.connected[k]].helloed
  }

  ghost predicate ScanningOk(s: Pool) {
    s.scanning.Some? ==>
      var p := s.scanning.value;
      && p < |s.peers| && !s.peers[p].detaching && !s.peers[p].helloed && s.peers[p].client
      && s.peers[p].at.Some? && s.peers[p].at.value in s.ipMap && s.ipMap[s.peers[p].at.value] == p
  }

  // The invariant, with at most one peer in the middle of a step.
  ghost predicate InvBut(cfg: Config, s: Pool, x: int) {
    && IpMapOk(s) && ConnectedOk(cfg, s) && ScanningOk(s)
    && forall p | 0 <= p < |s.peers| && p != x :: Settled(s, p)
  }

  ghost predicate Inv(cfg: Config, s: Pool) { InvBut(cfg, s, -1) }

  // What a step may do to the peers and maps that exist: nothing, but add to them.
  ghost predicate Extends(s: Pool, t: Pool) {
    && s.peers <= t.peers && t.connected == s.connected
    && forall at | at in s.ipMap :: at in t.ipMap && t.ipMap[at] == s.ipMap[at]
  }

  lemma {:induction false} ConnectKeeps(cfg: Config, s: Pool, at: IpPort, x: int)
    requires InvBut(cfg, s, x) && x < |s.peers| && at !in s.ipMap
    ensures InvBut(cfg, Connect(s, at), x) && Extends(s, Connect(s, at))
  {
    var t := Connect(s, at);
    forall p | 0 <= p < |t.peers| && p != x ensures Settled(t, p) {
      if p < |s.peers| { assert Settled(s, p); }
    }
  }

  /** scanRefresh keeps the invariant and only adds peers; if it leaves a scan in flight that was
      not there, it is of a new peer. */
  lemma {:induction false} RefreshKeeps(cfg: Config, s: Pool, now: int, t: Pool, x: int)
    requires InvBut(cfg, s, x) && x < |s.peers|
    requires ScanRefreshes(cfg, s, now, t)
    ensures InvBut(cfg, t, x) && Extends(s, t)
    ensures t.scanning == s.scanning || (t.scanning.Some? && t.scanning.value >= |s.peers|)
    decreases |Due(s.rows, now)|
  {
    hide InvBut;
    if s.scanning.None? && Scheduled(s.rows) != {} {
      var at :| Earliest(s.rows, at) && ScansOrWaits(cfg, s, now, at, t);
      if s.rows[at].next.value <= now {
        DueShrinks(cfg, s.rows, now, at);
        var s1 := PutOff(cfg, s, now, at);
        SamePeers(cfg, s, s1, x);
        if at in s.ipMap {
          RefreshKeeps(cfg, s1, now, t, x);
        } else {
          ConnectKeeps(cfg, s1, at, x);
          SamePeers(cfg, Connect(s1, at), Connect(s1, at).(scanning := None), x);
          assert ScanningOk(t);
          Rescanned(cfg, Connect(s1, at), t, x);
        }
      } else {
        SamePeers(cfg, s, t, x);
      }
    } else {
      SamePeers(cfg, s, t, x);
    }
  }

  lemma {:induction false} SamePeers(cfg: Config, s: Pool, t: Pool, x: int)
    requires InvBut(cfg, s, x)
    requires t.peers == s.peers && t.ipMap == s.ipMap && t.connected == s.connected
    requires t.scanning == s.scanning || t.scanning == None
    ensures InvBut(cfg, t, x)
  {
    forall p | 0 <= p < |t.peers| && p != x ensures Settled(t, p) { assert Settled(s, p); }
  }

  lemma {:induction false} Rescanned(cfg: Config, s: Pool, t: Pool, x: int)
    requires InvBut(cfg, s, x)
    requires t.peers == s.peers && t.ipMap == s.ipMap && t.connected == s.connected && ScanningOk(t)
    ensures InvBut(cfg, t, x)
  {
    forall p | 0 <= p < |t.peers| && p != x ensures Settled(t, p) { assert Settled(s, p); }
  }

  lemma {:induction false} LowWaterKeeps(cfg: Config, s: Pool, t: Pool)
    requires Inv(cfg, s) && LowWater(cfg, s, t)
    ensures Inv(cfg, t) && Extends(s, t)
    decreases |Available(s)|
  {
    if |s.connected| <= cfg.lowWater && Available(s) != {} {
      var at :| at in Available(s) && LowWaterTakes(cfg, s, at, t);
      AvailableShrinks(s, at);
      ConnectKeeps(cfg, s, at, -1);
      LowWaterKeeps(cfg, Connect(s, at), t);
    }
  }

  /** peerClosed, called for a peer that has just stopped: both maps and the scan let go of it. */
  lemma {:induction false} DetachKeeps(cfg: Config, s: Pool, now: int, p: PeerId, t: Pool)
    requires p < |s.peers| && InvBut(cfg, s, p)
    requires s.peers[p].detaching ==> Settled(s, p)
    requires s.scanning == Some(p) ==> s.peers[p].at.Some?
    requires Detaches(cfg, s, now, p, t)
    ensures Inv(cfg, t)
  {
    if s.peers[p].detaching {
      assert InvBut(cfg, s, -1);
    } else if s.peers[p].at.None? {
      StopsKeeps(cfg, s, p);
    } else {
      hide Closes;
      var s1, at := StartDetach(s, p), s.peers[p].at.value;
      var u :| Closes(cfg, s1, now, p, at, u) && p < |u.peers| && t == SetPeer(u, p, u.peers[p].(at := None));
      ClosesKeeps(cfg, s, s1, now, p, at, u);
      GoneKeeps(cfg, u, p, t);
    }
  }

  // A peer without an address stops.
  lemma {:induction false} StopsKeeps(cfg: Config, s: Pool, p: PeerId)
    requires p < |s.peers| && InvBut(cfg, s, p) && !s.peers[p].detaching && s.peers[p].at.None?
    ensures Inv(cfg, StartDetach(s, p))
  {
    StopsMaps(cfg, s, p);
    StopsOthers(cfg, s, p);
    hide StartDetach, IpMapOk, ConnectedOk, ScanningOk, Settled;
  }

  lemma {:induction false} StopsMaps(cfg: Config, s: Pool, p: PeerId)
    requires p < |s.peers| && InvBut(cfg, s, p) && !s.peers[p].detaching && s.peers[p].at.None?
    ensures var t := StartDetach(s, p); IpMapOk(t) && ConnectedOk(cfg, t) && ScanningOk(t)
  {
    hide Settled;
  }

  lemma {:induction false} StopsOthers(cfg: Config, s: Pool, p: PeerId)
    requires p < |s.peers| && InvBut(cfg, s, p) && !s.peers[p].detaching && s.peers[p].at.None?
    ensures forall q | 0 <= q < |StartDetach(s, p).peers| :: Settled(StartDetach(s, p), q)
  {
    hide IpMapOk, ConnectedOk, ScanningOk;
    var t := StartDetach(s, p);
    forall q | 0 <= q < |t.peers| ensures Settled(t, q) { if q != p { assert Settled(s, q); } }
  }

  // The address of a stopped peer is cleared.
  lemma {:induction false} GoneKeeps(cfg: Config, s: Pool, p: PeerId, t: Pool)
    requires Released(cfg, s, p) && t == SetPeer(s, p, s.peers[p].(at := None))
    ensures Inv(cfg, t)
  {
    forall q | 0 <= q < |t.peers| ensures Settled(t, q) { if q != p { assert Settled(s, q); } }
  }

  // A stopped peer that neither map nor the scan refers to.
  ghost predicate Released(cfg: Config, s: Pool, p: PeerId) {
    && InvBut(cfg, s, p) && p < |s.peers| && s.peers[p].detaching && s.peers[p].node == None
    && s.scanning != Some(p)
    && (forall b | b in s.ipMap :: s.ipMap[b] != p)
    && (forall k | k in s.connected :: s.connected[k] != p)
  }

  lemma {:induction false} ClosesKeeps(cfg: Config, s: Pool, s1: Pool, now: int, p: PeerId, at: IpPort, u: Pool)
    requires p < |s.peers| && InvBut(cfg, s, p) && !s.peers[p].detaching && s.peers[p].at == Some(at)
    requires s1 == StartDetach(s, p)
    requires Closes(cfg, s1, now, p, at, u)
    ensures Released(cfg, u, p)
  {
    var r1 := if s1.scanning == Some(p) then s1.(scanning := None) else s1;
    var r2 := if at in s1.ipMap && s1.ipMap[at] == p
              then ScanSet(cfg, r1.(ipMap := r1.ipMap - {at}), now, at) else r1;
    hide ScanRefreshes, InvBut, Released;
    ReleasedFirst(cfg, s, r2, p, at);
    if s1.scanning == Some(p) || r2.rows != s1.rows {
      assert InvBut(cfg, r2, p) && p < |r2.peers| by { ReleasedInv(cfg, r2, p); }
      RefreshKeeps(cfg, r2, now, u, p);
      ReleasedStays(cfg, r2, u, p);
    }
  }

  lemma {:induction false} ReleasedInv(cfg: Config, s: Pool, p: PeerId)
    requires Released(cfg, s, p)
    ensures InvBut(cfg, s, p) && p < |s.peers|
  {}

  lemma {:induction false} ReleasedStays(cfg: Config, s: Pool, t: Pool, p: PeerId)
    requires Released(cfg, s, p) && InvBut(cfg, t, p) && Extends(s, t)
    requires t.scanning == s.scanning || (t.scanning.Some? && t.scanning.value >= |s.peers|)
    ensures Released(cfg, t, p)
  {
    assert t.peers[p] == s.peers[p];
    hide Settled, ScanningOk;
  }

  // What has become of the pool when a peer at an address has been let go of.
  ghost predicate LetsGo(s: Pool, t: Pool, p: PeerId, at: IpPort)
    requires p < |s.peers|
  {
    && !s.peers[p].detaching && s.peers[p].at == Some(at)
    && t.peers == StartDetach(s, p).peers && t.connected == StartDetach(s, p).connected
    && t.ipMap == (if at in s.ipMap && s.ipMap[at] == p then s.ipMap - {at} else s.ipMap)
    && t.scanning == if s.scanning == Some(p) then None else s.scanning
  }

  lemma {:induction false} ReleasedFirst(cfg: Config, s: Pool, t: Pool, p: PeerId, at: IpPort)
    requires p < |s.peers| && InvBut(cfg, s, p) && LetsGo(s, t, p, at)
    ensures Released(cfg, t, p)
  {
    ReleasedAddress(cfg, s, t, p, at);
    ReleasedKey(cfg, s, t, p, at);
    ReleasedOthers(cfg, s, t, p, at);
    assert t.peers[p].detaching && t.peers[p].node == None;
    hide LetsGo, IpMapOk, ConnectedOk, ScanningOk, Settled, StartDetach;
  }

  lemma {:induction false} ReleasedAddress(cfg: Config, s: Pool, t: Pool, p: PeerId, at: IpPort)
    requires p < |s.peers| && InvBut(cfg, s, p) && LetsGo(s, t, p, at)
    ensures IpMapOk(t) && ScanningOk(t) && t.scanning != Some(p) && forall b | b in t.ipMap :: t.ipMap[b] != p
  {
    hide ConnectedOk, Settled;
    forall b | b in t.ipMap ensures t.ipMap[b] != p {
      assert s.peers[s.ipMap[b]].at == Some(b);
    }
  }

  lemma {:induction false} ReleasedKey(cfg: Config, s: Pool, t: Pool, p: PeerId, at: IpPort)
    requires p < |s.peers| && InvBut(cfg, s, p) && LetsGo(s, t, p, at)
    ensures ConnectedOk(cfg, t) && forall k | k in t.connected :: t.connected[k] != p
  {
    hide IpMapOk, ScanningOk, Settled;
    forall k | k in t.connected ensures t.connected[k] != p {
      assert s.peers[s.connected[k]].node == Some(k);
    }
  }

  lemma {:induction false} ReleasedOthers(cfg: Config, s: Pool, t: Pool, p: PeerId, at: IpPort)
    requires p < |s.peers| && InvBut(cfg, s, p) && LetsGo(s, t, p, at)
    ensures forall q | 0 <= q < |t.peers| && q != p :: Settled(t, q)
  {
    hide IpMapOk, ConnectedOk, ScanningOk;
    forall q | 0 <= q < |t.peers| && q != p ensures Settled(t, q) { assert Settled(s, q); }
  }

  lemma {:induction false} SavesKeeps(cfg: Config, s: Pool, now: int, at: IpPort, t: Pool)
    requires Inv(cfg, s) && SavesPeer(cfg, s, now, at, t)
    ensures Inv(cfg, t)
  {
    if at !in s.rows {
      var s1 := s.(rows := s.rows[at := Row(Some(0), 0)]);
      SamePeers(cfg, s, s1, -1);
      RefreshKeeps(cfg, s1, now, t, -1);
    }
  }

  /** The hello step keeps the invariant: an accepted peer is registered under its key, a refused one
      leaves its address to the peer that was there first. */
  lemma {:induction false} HelloKeeps(cfg: Config, s: Pool, now: int, p: PeerId, key: NodeKey, guess: IpPort, t: Pool)
    requires Inv(cfg, s) && p < |s.peers| && !s.peers[p].detaching && !s.peers[p].helloed
    requires Hello(cfg, s, now, p, key, guess, t)
    ensures Inv(cfg, t)
  {
    hide Verifies, Greets, InvBut;
    var peer := s.peers[p];
    var s1 := SetPeer(s, p, peer.(node := Some(key)));
    var s2: Pool :| (if peer.client then Verifies(cfg, s1, now, p, s2) else s2 == s1)
                    && p < |s2.peers| && Greets(cfg, s2, now, p, key, guess, t);
    VerifiesKeeps(cfg, s, s1, now, p, key, s2);
    GreetsKeeps(cfg, s2, now, p, key, guess, t);
  }

  // A peer that has just named its key and is not being scanned.
  ghost predicate Greeting(cfg: Config, s: Pool, p: PeerId, key: NodeKey) {
    && InvBut(cfg, s, p) && p < |s.peers| && s.scanning != Some(p)
    && !s.peers[p].detaching && !s.peers[p].helloed && s.peers[p].node == Some(key)
    && (s.peers[p].at.Some? ==> s.peers[p].at.value in s.ipMap && s.ipMap[s.peers[p].at.value] == p)
    && forall k | k in s.connected :: s.connected[k] != p
  }

  lemma {:induction false} GreetsKeeps(cfg: Config, s: Pool, now: int, p: PeerId, key: NodeKey, guess: IpPort, t: Pool)
    requires Greeting(cfg, s, p, key) && Greets(cfg, s, now, p, key, guess, t)
    ensures Inv(cfg, t)
  {
    hide Detaches, SavesPeer;
    var (keep, s1) := Connected(cfg, s, p, key, s.peers[p].at);
    if keep {
      var s2 := SetPeer(s1, p, s1.peers[p].(client := false, helloed := true));
      AcceptedKeeps(cfg, s, p, key, s2);
      if !s1.peers[p].client { SavesKeeps(cfg, s2, now, guess, t); }
    } else {
      var s2 := SetPeer(s1, p, s1.peers[p].(node := None));
      RefusedKeeps(cfg, s, p, key, s2);
      DetachKeeps(cfg, s2, now, p, t);
    }
  }

  lemma {:induction false} AcceptedKeeps(cfg: Config, s: Pool, p: PeerId, key: NodeKey, t: Pool)
    requires Greeting(cfg, s, p, key) && key != cfg.self && key !in s.connected
    requires t == SetPeer(s.(connected := s.connected[key := p]), p, s.peers[p].(client := false, helloed := true))
    ensures Inv(cfg, t)
  {
    forall q | 0 <= q < |t.peers| ensures Settled(t, q) { if q != p { assert Settled(s, q); } }
  }

  // After peerVerified the peer is not being scanned, and is still registered.
  lemma {:induction false} VerifiesKeeps(cfg: Config, s: Pool, s1: Pool, now: int, p: PeerId, key: NodeKey, s2: Pool)
    requires Inv(cfg, s) && p < |s.peers| && !s.peers[p].detaching && !s.peers[p].helloed
    requires s1 == SetPeer(s, p, s.peers[p].(node := Some(key)))
    requires if s.peers[p].client then Verifies(cfg, s1, now, p, s2) else s2 == s1
    ensures Greeting(cfg, s2, p, key)
  {
    NamesKey(cfg, s, s1, p, key);
    hide Inv, InvBut, ScanRefreshes;
    if s.peers[p].client && s1.scanning == Some(p) {
      var r := Unschedule(cfg, s1, s1.peers[p]).(scanning := None);
      SamePeers(cfg, s1, r, p);
      RefreshKeeps(cfg, r, now, s2, p);
    }
  }

  // A peer has named its key, and is still where it was.
  lemma {:induction false} NamesKey(cfg: Config, s: Pool, s1: Pool, p: PeerId, key: NodeKey)
    requires Inv(cfg, s) && p < |s.peers| && !s.peers[p].detaching && !s.peers[p].helloed
    requires s1 == SetPeer(s, p, s.peers[p].(node := Some(key)))
    ensures InvBut(cfg, s1, p) && (s.scanning == Some(p) ==> s.peers[p].client)
    ensures s1.peers[p].at.Some? ==> s1.peers[p].at.value in s1.ipMap && s1.ipMap[s1.peers[p].at.value] == p
    ensures forall k | k in s1.connected :: s1.connected[k] != p
  {
    assert Settled(s, p);
    forall q | 0 <= q < |s1.peers| && q != p ensures Settled(s1, q) { assert Settled(s, q); }
  }

  lemma {:induction false} RefusedKeeps(cfg: Config, s: Pool, p: PeerId, key: NodeKey, t: Pool)
    requires Greeting(cfg, s, p, key)
    requires key in s.connected ==> s.connected[key] < |s.peers|
    requires var (keep, s1) := Connected(cfg, s, p, key, s.peers[p].at);
             !keep && t == SetPeer(s1, p, s1.peers[p].(node := None))
    ensures InvBut(cfg, t, p) && p < |t.peers| && !t.peers[p].detaching && t.scanning != Some(p)
  {
    var (keep, s1) := Connected(cfg, s, p, key, s.peers[p].at);
    if s1 != s { DiscoveredKeeps(cfg, s, p, key, s1); }
    forall q | 0 <= q < |t.peers| && q != p ensures Settled(t, q) { assert Settled(s1, q); }
  }

  // A redundant outbound connection tells where the peer it duplicates can be reached.
  lemma {:induction false} DiscoveredKeeps(cfg: Config, s: Pool, p: PeerId, key: NodeKey, t: Pool)
    requires Greeting(cfg, s, p, key) && key in s.connected && s.connected[key] < |s.peers|
    requires s.peers[p].at.Some? && s.peers[s.connected[key]].at.None?
    requires var known, at := s.connected[key], s.peers[p].at;
             t == s.(peers := s.peers[known := s.peers[known].(at := at)], ipMap := s.ipMap[at.value := known])
    ensures InvBut(cfg, t, p) && t.peers[p] == s.peers[p]
  {
    var known := s.connected[key];
    assert Settled(s, known);
    forall q | 0 <= q < |t.peers| && q != p ensures Settled(t, q) {
      assert Settled(s, q);
    }
  }

  /** Every step of the pool keeps the invariant. */
  lemma {:induction false} StepKeeps(cfg: Config, s: Pool, now: int, e: Event, t: Pool)
    requires Inv(cfg, s) && Step(cfg, s, now, e, t)
    ensures Inv(cfg, t)
  {
    match e
    case Start =>
      var u :| LowWater(cfg, s, u) && ScanRefreshes(cfg, u, now, t);
      LowWaterKeeps(cfg, s, u);
      RefreshKeeps(cfg, u, now, t, -1);
    case PolicyFires => LowWaterKeeps(cfg, s, t);
    case ScanHandler(stale) =>
      var s1 := if stale then s else s.(timer := None);
      SamePeers(cfg, s, s1, -1);
      RefreshKeeps(cfg, s1, now, t, -1);
    case SavePeer(at) => SavesKeeps(cfg, s, now, at, t);
    case ConnectTo(at) =>
      var s1 := s.(rows := s.rows[at := Row(Some(0), 0)], log := s.log + [Requested(at)]);
      SamePeers(cfg, s, s1, -1);
      RefreshKeeps(cfg, s1, now, t, -1);
    case Accept =>
      forall p | 0 <= p < |t.peers| ensures Settled(t, p) { if p < |s.peers| { assert Settled(s, p); } }
    case HelloFrom(p, key, guess) => HelloKeeps(cfg, s, now, p, key, guess, t);
    case Detach(p) =>
      assert Settled(s, p);
      DetachKeeps(cfg, s, now, p, t);
  }
}
