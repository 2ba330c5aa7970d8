/**
 What the steps of the pool come to: whom a hello connects, which rows are scanned and in which order, what
 becomes of rows and peers that a step does not concern.
 */
module PoolSteps {
  import opened Wrappers
  import opened PoolSpec
  import opened PoolInvariant
  import opened PoolLog
  import opened PoolRuns

  ////////// Scanning //////////

  /** When scanRefresh returns without a scan in flight, no row is due. */
  lemma {:induction false} RefreshLeavesNoneDue(cfg: Config, s: Pool, now: int, t: Pool)
    requires ScanRefreshes(cfg, s, now, t)
    ensures t.scanning.Some? || Due(t.rows, now) == {}
    decreases |Due(s.rows, now)|
  {
    if s.scanning.None? && Scheduled(s.rows) != {} {
      var at :| Earliest(s.rows, at) && ScansOrWaits(cfg, s, now, at, t);
      if s.rows[at].next.value <= now {
        if at in s.ipMap {
          DueShrinks(cfg, s.rows, now, at);
          RefreshLeavesNoneDue(cfg, PutOff(cfg, s, now, at), now, t);
        }
      } else {
        assert forall b | b in Due(s.rows, now) :: b in Scheduled(s.rows);
      }
    }
  }

  /** scanRefresh connects to at most one row, the last it put off and one not connected yet; the rows it put
      off before are connected already. */
  lemma {:induction false} RefreshConnects(cfg: Config, s: Pool, now: int, t: Pool)
    requires ScanRefreshes(cfg, s, now, t)
    ensures s.log <= t.log && t.connected == s.connected
    ensures if t.scanning == s.scanning then t.peers == s.peers && t.ipMap == s.ipMap
            else && |t.log| > |s.log| && s.scanning.None? && t.scanning == Some(|s.peers|)
                 && var at := t.log[|t.log| - 1].at;
                    at !in s.ipMap && t.ipMap == s.ipMap[at := |s.peers|]
                    && t.peers == s.peers + [Peer(Some(at), None, true, false, false)]
    ensures forall m | |s.log| <= m < |t.log| && (m < |t.log| - 1 || t.scanning == s.scanning) :: t.log[m].at in s.ipMap
    decreases |Due(s.rows, now)|
  {
    if s.scanning.None? && Scheduled(s.rows) != {} {
      var at :| Earliest(s.rows, at) && ScansOrWaits(cfg, s, now, at, t);
      if s.rows[at].next.value <= now {
        DueShrinks(cfg, s.rows, now, at);
        var s1 := PutOff(cfg, s, now, at);
        if at in s.ipMap {
          RefreshConnects(cfg, s1, now, t);
          assert t.log[|s.log|] == s1.log[|s.log|];
        }
      }
    }
  }

  /** Rows are scanned in the order they are due: none is put off while one that was due earlier is not. */
  lemma {:induction false} RefreshInOrder(cfg: Config, s: Pool, now: int, t: Pool, m: nat, b: IpPort)
    requires ScanRefreshes(cfg, s, now, t) && s.log <= t.log && |s.log| <= m < |t.log|
    requires b in Scheduled(s.rows) && t.log[m].at in Scheduled(s.rows)
    requires s.rows[b].next.value < s.rows[t.log[m].at].next.value
    ensures exists k | |s.log| <= k < m :: t.log[k].at == b
    decreases |Due(s.rows, now)|
  {
    var at :| Earliest(s.rows, at) && ScansOrWaits(cfg, s, now, at, t);
    DueShrinks(cfg, s.rows, now, at);
    var s1 := PutOff(cfg, s, now, at);
    RefreshLogged(cfg, s, now, at, t);
    assert t.log[|s.log|] == s1.log[|s.log|];
    if b == at {
      assert t.log[|s.log|].at == b;
    } else {
      assert m > |s.log|;
      RefreshLogs(cfg, s1, now, t);
      assert Logged(cfg, s1.rows, now, t.rows, t.log[m]);
      RefreshInOrder(cfg, s1, now, t, m, b);
    }
  }

  // A refresh that logs at all has put off the earliest row first.
  lemma {:induction false} RefreshLogged(cfg: Config, s: Pool, now: int, at: IpPort, t: Pool)
    requires at in Scheduled(s.rows) && ScansOrWaits(cfg, s, now, at, t) && |t.log| > |s.log|
    ensures at in Due(s.rows, now) && PutOff(cfg, s, now, at).log <= t.log
    ensures |t.log| > |s.log| + 1 ==> at in s.ipMap && ScanRefreshes(cfg, PutOff(cfg, s, now, at), now, t)
  {
    if s.rows[at].next.value <= now && at in s.ipMap {
      DueShrinks(cfg, s.rows, now, at);
      RefreshLogs(cfg, PutOff(cfg, s, now, at), now, t);
    }
  }

  ////////// Hellos //////////

  lemma {:induction false} ClosesOnly(cfg: Config, s: Pool, now: int, p: PeerId, at: IpPort, t: Pool)
    requires Closes(cfg, s, now, p, at, t)
    ensures t.connected == s.connected && s.peers <= t.peers
  {
    hide ScanRefreshes;
    var s1 := if s.scanning == Some(p) then s.(scanning := None) else s;
    var s2 := if at in s.ipMap && s.ipMap[at] == p
              then ScanSet(cfg, s1.(ipMap := s1.ipMap - {at}), now, at) else s1;
    if s.scanning == Some(p) || s2.rows != s.rows { RefreshExtends(cfg, s2, now, t); }
  }

  lemma {:induction false} DetachOnly(cfg: Config, s: Pool, now: int, p: PeerId, t: Pool)
    requires p < |s.peers| && !s.peers[p].detaching && s.peers[p].node.None? && Detaches(cfg, s, now, p, t)
    ensures p < |t.peers| && t.peers[p].detaching && t.connected == s.connected
  {
    hide Closes;
    var s1 := StartDetach(s, p);
    if s1.peers[p].at.Some? {
      var at := s1.peers[p].at.value;
      var u :| Closes(cfg, s1, now, p, at, u) && p < |u.peers| && t == SetPeer(u, p, u.peers[p].(at := None));
      ClosesOnly(cfg, s1, now, p, at, u);
    }
  }

  /** savePeer: the row is there afterwards; a new one is due at once, so that it has been scanned on return,
      unless another scan is in flight. */
  lemma {:induction false} SavesOutcome(cfg: Config, s: Pool, now: int, at: IpPort, t: Pool)
    requires SavesPeer(cfg, s, now, at, t)
    ensures t.rows.Keys == s.rows.Keys + {at} && Extends(s, t)
    ensures at in s.rows ==> t == s
    ensures at !in s.rows && s.scanning.Some? ==> t.rows[at] == Row(Some(0), 0)
    ensures at !in s.rows && s.scanning.None? && t.scanning.None? && now >= 0 ==>
              t.rows[at] == Row(Some(now + cfg.minInterval), Wrap32(2 * cfg.minInterval))
  {
    if at !in s.rows {
      var s1 := s.(rows := s.rows[at := Row(Some(0), 0)]);
      RefreshExtends(cfg, s1, now, t);
      RefreshLogs(cfg, s1, now, t);
      RefreshLeavesNoneDue(cfg, s1, now, t);
      if s.scanning.None? && t.scanning.None? && now >= 0 { PutOffIs(cfg, s1, now, at, t); }
    }
  }

  // A due row that is not due any more has been put off, by what its interval says.
  lemma {:induction false} PutOffIs(cfg: Config, s: Pool, now: int, at: IpPort, t: Pool)
    requires ScanRefreshes(cfg, s, now, t) && at in Due(s.rows, now) && at !in Due(t.rows, now)
    ensures at in t.rows && t.rows[at] == ScannedRow(cfg, s.rows[at], now)
  {
    RefreshLogs(cfg, s, now, t);
    hide ScanRefreshes;
    assert t.rows[at] != s.rows[at];
    assert HasEntry(t.log, |s.log|, at);
    var m :| |s.log| <= m < |t.log| && t.log[m].at == at;
    assert Logged(cfg, s.rows, now, t.rows, t.log[m]);
  }

  /** connectTo: whatever the row was, it is due at once, so that it has been scanned on return, unless another
      scan is in flight. */
  lemma {:induction false} ConnectToOutcome(cfg: Config, s: Pool, now: int, at: IpPort, t: Pool)
    requires ConnectsTo(cfg, s, now, at, t)
    ensures t.rows.Keys == s.rows.Keys + {at} && Extends(s, t)
    ensures s.scanning.Some? ==> t.rows[at] == Row(Some(0), 0)
    ensures s.scanning.None? && t.scanning.None? && now >= 0 ==>
              t.rows[at] == Row(Some(now + cfg.minInterval), Wrap32(2 * cfg.minInterval))
  {
    var s1 := s.(rows := s.rows[at := Row(Some(0), 0)], log := s.log + [Requested(at)]);
    RefreshExtends(cfg, s1, now, t);
    RefreshLogs(cfg, s1, now, t);
    RefreshLeavesNoneDue(cfg, s1, now, t);
    if s.scanning.None? && t.scanning.None? && now >= 0 { PutOffIs(cfg, s1, now, at, t); }
  }

  // A row that is not scheduled is left alone by scanRefresh.
  lemma {:induction false} UnscheduledStays(cfg: Config, s: Pool, now: int, at: IpPort, t: Pool)
    requires ScanRefreshes(cfg, s, now, t) && at in s.rows && at !in Due(s.rows, now)
    ensures at in t.rows && t.rows[at] == s.rows[at]
  {
    RefreshLogs(cfg, s, now, t);
    hide ScanRefreshes;
    forall m | |s.log| <= m < |t.log| ensures t.log[m].at != at {
      assert Logged(cfg, s.rows, now, t.rows, t.log[m]);
    }
    assert !HasEntry(t.log, |s.log|, at);
  }

  lemma {:induction false} VerifiesOutcome(cfg: Config, s: Pool, now: int, p: PeerId, t: Pool)
    requires p < |s.peers| && Verifies(cfg, s, now, p, t)
    requires s.peers[p].at.Some? && s.peers[p].at.value in s.rows
    requires s.scanning == Some(p) && s.peers[p].node != Some(cfg.self)
    ensures s.peers[p].at.value in t.rows && t.rows[s.peers[p].at.value] == Row(None, 0)
  {
    var u := Unschedule(cfg, s, s.peers[p]).(scanning := None);
    UnscheduledStays(cfg, u, now, s.peers[p].at.value, t);
  }

  // What a hello leaves, from peerConnected on.
  lemma {:induction false} GreetsOutcome(cfg: Config, s: Pool, now: int, p: PeerId, key: NodeKey, guess: IpPort,
                                         t: Pool)
    requires Greeting(cfg, s, p, key) && Greets(cfg, s, now, p, key, guess, t)
    ensures p < |t.peers|
    ensures if key != cfg.self && key !in s.connected
            then && t.connected == s.connected[key := p]
                 && t.peers[p] == s.peers[p].(client := false, helloed := true)
                 && (if s.peers[p].client then t.rows == s.rows else t.rows.Keys == s.rows.Keys + {guess})
            else t.peers[p].detaching && t.connected == s.connected
  {
    hide Detaches, SavesPeer;
    var (keep, s1) := Connected(cfg, s, p, key, s.peers[p].at);
    if keep {
      var s2 := SetPeer(s1, p, s1.peers[p].(client := false, helloed := true));
      if !s1.peers[p].client { SavesOutcome(cfg, s2, now, guess, t); }
    } else {
      DetachOnly(cfg, SetPeer(s1, p, s1.peers[p].(node := None)), now, p, t);
    }
  }

  // The peer of a hello is connected under its key.
  ghost predicate IsConnected(t: Pool, p: PeerId, key: NodeKey) {
    key in t.connected && t.connected[key] == p && p < |t.peers| && t.peers[p].helloed && !t.peers[p].detaching
  }

  // From state s to state t by a hello.
  ghost predicate HelloLeads(cfg: Config, s: Pool, p: PeerId, key: NodeKey, guess: IpPort, t: Pool)
    requires p < |s.peers|
  {
    && p < |t.peers|
    && (IsConnected(t, p, key) <==> key != cfg.self && key !in s.connected)
    && if key != cfg.self && key !in s.connected
       then && t.connected == s.connected[key := p] && t.peers[p].node == Some(key) && t.peers[p].at == s.peers[p].at
            && (!s.peers[p].client ==> guess in t.rows)
            && (s.scanning == Some(p) && s.peers[p].at.Some? && s.peers[p].at.value in s.rows ==>
                  s.peers[p].at.value in t.rows && t.rows[s.peers[p].at.value] == Row(None, 0))
       else t.peers[p].detaching && t.connected == s.connected
  }

  /** A hello connects its peer under its key, if and only if the key is not our own and not connected already;
      an accepted inbound peer's guessed address is in the table afterwards, the row of an accepted scan is off
      the schedule; a refused peer is detaching, and no connection is lost or made. */
  lemma {:induction false} HelloOutcome(cfg: Config, s: Pool, now: int, p: PeerId, key: NodeKey, guess: IpPort, t: Pool)
    requires Inv(cfg, s) && Step(cfg, s, now, HelloFrom(p, key, guess), t)
    ensures HelloLeads(cfg, s, p, key, guess, t)
  {
    hide Verifies, Greets, InvBut;
    var peer := s.peers[p];
    var s1 := SetPeer(s, p, peer.(node := Some(key)));
    var s2: Pool :| (if peer.client then Verifies(cfg, s1, now, p, s2) else s2 == s1)
                    && p < |s2.peers| && Greets(cfg, s2, now, p, key, guess, t);
    VerifiesKeeps(cfg, s, s1, now, p, key, s2);
    if peer.client { VerifiesExtends(cfg, s1, now, p, s2); }
    KnownStays(cfg, s, s2, p, key);
    GreetsOutcome(cfg, s2, now, p, key, guess, t);
    assert t.peers[p].detaching ==> !(key != cfg.self && key !in s.connected);
    ScanIsClient(cfg, s, p);
    if key != cfg.self && key !in s.connected && s.scanning == Some(p) && peer.at.value in s.rows {
      VerifiesOutcome(cfg, s1, now, p, s2);
    }
  }

  lemma {:induction false} ScanIsClient(cfg: Config, s: Pool, p: PeerId)
    requires Inv(cfg, s) && p < |s.peers|
    ensures s.scanning == Some(p) ==> s.peers[p].client && s.peers[p].at.Some?
  {}

  /** In every run: whom a hello connects, and what it leaves. */
  lemma {:induction false} RunHello(cfg: Config, s: Pool, run: seq<Moment>, i: nat)
    requires Run(cfg, s, run) && i < |run| && run[i].event.HelloFrom?
    ensures var b, e := Before(s, run, i), run[i].event;
            e.p < |b.peers| && HelloLeads(cfg, b, e.p, e.key, e.guess, run[i].after)
  {
    RunGood(cfg, s, run, i - 1);
    assert Step(cfg, Before(s, run, i), run[i].now, run[i].event, run[i].after);
    hide Run, Inv, Healthy, HelloLeads, Hello;
    HelloOutcome(cfg, Before(s, run, i), run[i].now, run[i].event.p, run[i].event.key, run[i].event.guess,
                 run[i].after);
  }

  /** An accepted connection is a new inbound peer, of which neither address nor key is known, so that its hello
      saves the address it guesses. */
  lemma {:induction false} AcceptOutcome(cfg: Config, s: Pool, now: int, t: Pool)
    requires Step(cfg, s, now, Accept, t)
    ensures |t.peers| == |s.peers| + 1 && s.peers <= t.peers && t == s.(peers := t.peers)
    ensures var p := t.peers[|s.peers|]; !p.client && !p.helloed && !p.detaching && p.at.None? && p.node.None?
  {}

  ////////// Policy and closing //////////

  /** policyLowWater connects to every available row when connections are at or under low water, and to none
      when they are above. */
  lemma {:induction false} LowWaterConnects(cfg: Config, s: Pool, t: Pool)
    requires LowWater(cfg, s, t)
    ensures if |s.connected| > cfg.lowWater then t == s
            else t.ipMap.Keys == s.ipMap.Keys + Available(s) && |t.peers| == |s.peers| + |Available(s)|
    decreases |Available(s)|
  {
    hide Available, Connect;
    if |s.connected| <= cfg.lowWater && Available(s) != {} {
      var at :| at in Available(s) && LowWaterTakes(cfg, s, at, t);
      AvailableShrinks(s, at);
      ConnectAdds(s, at);
      LowWaterConnects(cfg, Connect(s, at), t);
      OneTaken(s.ipMap.Keys, Available(s), at);
    }
  }

  lemma {:induction false} ConnectAdds(s: Pool, at: IpPort)
    ensures var t := Connect(s, at);
            t.ipMap.Keys == s.ipMap.Keys + {at} && |t.peers| == |s.peers| + 1 && t.connected == s.connected
  {}

  lemma {:induction false} OneTaken(keys: set<IpPort>, free: set<IpPort>, at: IpPort)
    requires at in free
    ensures keys + {at} + (free - {at}) == keys + free && |free - {at}| + 1 == |free|
  {}

  /** Closing the connection of an unscheduled row schedules it after the minimal interval exactly. */
  lemma {:induction false} ClosesSchedulesAt(cfg: Config, s: Pool, now: int, p: PeerId, at: IpPort, t: Pool)
    requires Closes(cfg, s, now, p, at, t) && at in s.ipMap && s.ipMap[at] == p && at in s.rows
    ensures at in t.rows
    ensures s.rows[at].next.None? ==> t.rows[at] == Row(Some(now + cfg.minInterval), cfg.minInterval)
  {
    hide ScanRefreshes;
    var s1 := if s.scanning == Some(p) then s.(scanning := None) else s;
    var s2 := ScanSet(cfg, s1.(ipMap := s1.ipMap - {at}), now, at);
    if s.scanning == Some(p) || s2.rows != s.rows {
      RefreshLogs(cfg, s2, now, t);
      if s.rows[at].next.None? { UnscheduledStays(cfg, s2, now, at, t); }
    }
  }
}
