/**
 What holds in every run of the pool: consistent maps, no lost wake-up, no row that becomes available
 by itself, and spaced scan attempts.
 */
module PoolRuns {
  import opened Wrappers
  import opened PoolSpec
  import opened PoolInvariant
  import opened PoolPacing
  import opened PoolLog

  ////////// No lost wake-up //////////

  // A scan is in flight, or the timer is armed for the earliest row, or no row is scheduled.
  ghost predicate Awake(s: Pool) {
    if s.scanning.Some? then s.timer == None
    else if Scheduled(s.rows) == {} then s.timer == None
    else exists at :: Earliest(s.rows, at) && s.timer == s.rows[at].next
  }

  // What refreshing needs: a scan in flight and an armed timer exclude each other.
  ghost predicate Calm(s: Pool) { s.scanning.Some? ==> s.timer == None }

  lemma {:induction false} RefreshWakes(cfg: Config, s: Pool, now: int, t: Pool)
    requires Calm(s) && ScanRefreshes(cfg, s, now, t)
    ensures Awake(t)
    decreases |Due(s.rows, now)|
  {
    if s.scanning.None? && Scheduled(s.rows) != {} {
      var at :| Earliest(s.rows, at) && ScansOrWaits(cfg, s, now, at, t);
      if s.rows[at].next.value <= now && at in s.ipMap {
        DueShrinks(cfg, s.rows, now, at);
        RefreshWakes(cfg, PutOff(cfg, s, now, at), now, t);
      }
    }
  }

  ////////// Available rows //////////

  /** scanRefresh makes no row available, and takes no row off the schedule. */
  lemma {:induction false} RefreshTakes(cfg: Config, s: Pool, now: int, t: Pool)
    requires ScanRefreshes(cfg, s, now, t)
    ensures Available(t) <= Available(s)
    ensures Scheduled(s.rows) <= Scheduled(t.rows)
    decreases |Due(s.rows, now)|
  {
    if s.scanning.None? && Scheduled(s.rows) != {} {
      var at :| Earliest(s.rows, at) && ScansOrWaits(cfg, s, now, at, t);
      if s.rows[at].next.value <= now {
        DueShrinks(cfg, s.rows, now, at);
        var s1 := PutOff(cfg, s, now, at);
        assert Available(s1) <= Available(s) && Scheduled(s.rows) <= Scheduled(s1.rows);
        if at in s.ipMap { RefreshTakes(cfg, s1, now, t); }
      }
    }
  }

  ////////// Everything a step keeps, apart from the maps //////////

  ghost predicate Healthy(cfg: Config, s: Pool, now: int) { Awake(s) && Paced(cfg, s, now) }

  lemma {:induction false} RefreshDoes(cfg: Config, s: Pool, now: int, t: Pool)
    requires Calm(s) && Paced(cfg, s, now) && ScanRefreshes(cfg, s, now, t)
    ensures Healthy(cfg, t, now) && Available(t) <= Available(s)
    ensures Scheduled(s.rows) <= Scheduled(t.rows)
  {
    RefreshWakes(cfg, s, now, t);
    RefreshTakes(cfg, s, now, t);
    RefreshPaces(cfg, s, now, t);
  }

  // Peers and maps change, the schedule does not.
  lemma {:induction false} SameSchedule(cfg: Config, s: Pool, now: int, t: Pool)
    requires Healthy(cfg, s, now)
    requires t.rows == s.rows && t.log == s.log && t.scanning == s.scanning && t.timer == s.timer
    ensures Healthy(cfg, t, now)
  {
    SameTable(cfg, s, now, t);
  }

  /** When policyLowWater returns, connections exceed low water or no row is available; it never found
      its row already in the map, and changed nothing but peers and the map. */
  lemma {:induction false} LowWaterDoes(cfg: Config, s: Pool, t: Pool)
    requires LowWater(cfg, s, t)
    ensures |t.connected| > cfg.lowWater || Available(t) == {}
    ensures Available(t) <= Available(s)
    ensures t.rows == s.rows && t.log == s.log && t.scanning == s.scanning && t.timer == s.timer
    ensures t.connected == s.connected
    decreases |Available(s)|
  {
    if |s.connected| <= cfg.lowWater && Available(s) != {} {
      var at :| at in Available(s) && LowWaterTakes(cfg, s, at, t);
      AvailableShrinks(s, at);
      LowWaterDoes(cfg, Connect(s, at), t);
    }
  }

  lemma {:induction false} SavesDoes(cfg: Config, s: Pool, now: int, at: IpPort, t: Pool)
    requires Healthy(cfg, s, now) && SavesPeer(cfg, s, now, at, t)
    ensures Healthy(cfg, t, now) && Available(t) <= Available(s)
  {
    if at !in s.rows {
      var s1 := s.(rows := s.rows[at := Row(Some(0), 0)]);
      assert Remembers(cfg, s, now, at);
      RowChanged(cfg, s, now, at, Row(Some(0), 0), s1);
      RefreshDoes(cfg, s1, now, t);
      assert Available(s1) <= Available(s);
    }
  }

  lemma {:induction false} ConnectsToDoes(cfg: Config, s: Pool, now: int, at: IpPort, t: Pool)
    requires Healthy(cfg, s, now) && ConnectsTo(cfg, s, now, at, t)
    ensures Healthy(cfg, t, now) && Available(t) <= Available(s)
  {
    var s1 := s.(rows := s.rows[at := Row(Some(0), 0)], log := s.log + [Requested(at)]);
    RowChanged(cfg, s, now, at, Row(Some(0), 0), s1);
    RefreshDoes(cfg, s1, now, t);
    assert Available(s1) <= Available(s);
  }

  /** peerClosed: no row becomes available, and the row of an identified connection ends up
      scheduled. */
  lemma {:induction false} ClosesDoes(cfg: Config, s: Pool, now: int, p: PeerId, at: IpPort, t: Pool)
    requires Healthy(cfg, s, now) && Closes(cfg, s, now, p, at, t)
    ensures Healthy(cfg, t, now) && Available(t) <= Available(s)
    ensures at in s.ipMap && s.ipMap[at] == p && at in s.rows ==> at in Scheduled(t.rows)
  {
    var s1 := if s.scanning == Some(p) then s.(scanning := None) else s;
    var s2 := if at in s.ipMap && s.ipMap[at] == p
              then ScanSet(cfg, s1.(ipMap := s1.ipMap - {at}), now, at) else s1;
    assert Available(s2) <= Available(s);
    if s2.rows != s.rows {
      assert Remembers(cfg, s, now, at);
      RowChanged(cfg, s, now, at, s2.rows[at], s2);
    } else {
      SameTable(cfg, s, now, s2);
    }
    if s.scanning == Some(p) || s2.rows != s.rows {
      RefreshDoes(cfg, s2, now, t);
    } else {
      SameSchedule(cfg, s, now, t);
    }
  }

  lemma {:induction false} DetachDoes(cfg: Config, s: Pool, now: int, p: PeerId, t: Pool)
    requires p < |s.peers| && Healthy(cfg, s, now) && Detaches(cfg, s, now, p, t)
    ensures Healthy(cfg, t, now) && Available(t) <= Available(s)
    ensures !s.peers[p].detaching && s.peers[p].at.Some? ==>
              var at := s.peers[p].at.value;
              at in s.ipMap && s.ipMap[at] == p && at in s.rows ==> at in Scheduled(t.rows)
  {
    hide Healthy, Available;
    if !s.peers[p].detaching {
      hide Closes;
      var s1 := StartDetach(s, p);
      SameSchedule'(cfg, s, now, s1);
      if s1.peers[p].at.Some? {
        var at := s1.peers[p].at.value;
        var u :| Closes(cfg, s1, now, p, at, u) && p < |u.peers| && t == SetPeer(u, p, u.peers[p].(at := None));
        ClosesDoes(cfg, s1, now, p, at, u);
        SameSchedule'(cfg, u, now, t);
      }
    }
  }

  lemma {:induction false} SameSchedule'(cfg: Config, s: Pool, now: int, t: Pool)
    requires Healthy(cfg, s, now)
    requires t.rows == s.rows && t.log == s.log && t.scanning == s.scanning && t.timer == s.timer
    requires forall at | at in s.ipMap :: at in t.ipMap
    ensures Healthy(cfg, t, now) && Available(t) <= Available(s)
  {
    SameSchedule(cfg, s, now, t);
  }

  lemma {:induction false} VerifiesDoes(cfg: Config, s: Pool, now: int, p: PeerId, t: Pool)
    requires p < |s.peers| && ScanningOk(s) && Healthy(cfg, s, now) && Verifies(cfg, s, now, p, t)
    ensures Healthy(cfg, t, now) && Available(t) <= Available(s)
  {
    if s.scanning == Some(p) {
      var s1 := Unschedule(cfg, s, s.peers[p]);
      if s1 != s {
        var at := s.peers[p].at.value;
        assert s1.log[..|s.log|] == s.log;
        assert Remembers(cfg, s, now, at);
        RowChanged(cfg, s, now, at, Row(None, 0), s1);
      }
      SameTable(cfg, s1, now, s1.(scanning := None));
      RefreshDoes(cfg, s1.(scanning := None), now, t);
      assert Available(s1) <= Available(s);
    }
  }

  lemma {:induction false} HelloDoes(cfg: Config, s: Pool, now: int, p: PeerId, key: NodeKey, guess: IpPort, t: Pool)
    requires Inv(cfg, s) && p < |s.peers| && Healthy(cfg, s, now) && Hello(cfg, s, now, p, key, guess, t)
    ensures Healthy(cfg, t, now) && Available(t) <= Available(s)
  {
    hide Verifies, Greets, Healthy, Available;
    var peer := s.peers[p];
    var s1 := SetPeer(s, p, peer.(node := Some(key)));
    var s2: Pool :| (if peer.client then Verifies(cfg, s1, now, p, s2) else s2 == s1)
                    && p < |s2.peers| && Greets(cfg, s2, now, p, key, guess, t);
    SameSchedule'(cfg, s, now, s1);
    if peer.client { VerifiesDoes(cfg, s1, now, p, s2); }
    GreetsDoes(cfg, s2, now, p, key, guess, t);
  }

  lemma {:induction false} GreetsDoes(cfg: Config, s: Pool, now: int, p: PeerId, key: NodeKey, guess: IpPort, t: Pool)
    requires p < |s.peers| && Healthy(cfg, s, now) && Greets(cfg, s, now, p, key, guess, t)
    ensures Healthy(cfg, t, now) && Available(t) <= Available(s)
  {
    hide Detaches, SavesPeer, Healthy, Available;
    var (keep, s1) := Connected(cfg, s, p, key, s.peers[p].at);
    if keep {
      var s2 := SetPeer(s1, p, s1.peers[p].(client := false, helloed := true));
      SameSchedule'(cfg, s, now, s2);
      if !s1.peers[p].client { SavesDoes(cfg, s2, now, guess, t); }
    } else {
      var s2 := SetPeer(s1, p, s1.peers[p].(node := None));
      SameSchedule'(cfg, s, now, s2);
      DetachDoes(cfg, s2, now, p, t);
    }
  }

  /** Every step keeps the wake-up and the spacing, and makes no row available. */
  lemma {:induction false} StepDoes(cfg: Config, s: Pool, now: int, e: Event, t: Pool)
    requires Inv(cfg, s) && Calm(s) && Paced(cfg, s, now) && (e == Start || Awake(s))
    requires Step(cfg, s, now, e, t)
    ensures Healthy(cfg, t, now) && Available(t) <= Available(s)
  {
    match e
    case Start =>
      var u :| LowWater(cfg, s, u) && ScanRefreshes(cfg, u, now, t);
      LowWaterDoes(cfg, s, u);
      SameTable(cfg, s, now, u);
      RefreshDoes(cfg, u, now, t);
    case PolicyFires =>
      LowWaterDoes(cfg, s, t);
      SameSchedule(cfg, s, now, t);
    case ScanHandler(stale) =>
      var s1 := if stale then s else s.(timer := None);
      SameTable(cfg, s, now, s1);
      RefreshDoes(cfg, s1, now, t);
    case SavePeer(at) => SavesDoes(cfg, s, now, at, t);
    case ConnectTo(at) => ConnectsToDoes(cfg, s, now, at, t);
    case Accept => SameSchedule'(cfg, s, now, t);
    case HelloFrom(p, key, guess) => HelloDoes(cfg, s, now, p, key, guess, t);
    case Detach(p) => DetachDoes(cfg, s, now, p, t);
  }

  ////////// Runs //////////

  ghost predicate Good(cfg: Config, s: Pool, now: int) { Inv(cfg, s) && Healthy(cfg, s, now) }

  lemma {:induction false} Later(cfg: Config, s: Pool, now: int, later: int)
    requires Paced(cfg, s, now) && now <= later
    ensures Paced(cfg, s, later)
  {
    forall at ensures Remembers(cfg, s, later, at) { assert Remembers(cfg, s, now, at); }
  }

  lemma {:induction false} RunGood(cfg: Config, s: Pool, run: seq<Moment>, i: nat)
    requires Run(cfg, s, run) && i < |run|
    ensures Good(cfg, run[i].after, run[i].now)
    ensures Available(run[i].after) <= Available(Before(s, run, i))
    decreases i
  {
    hide Step, Inv, Healthy, Available;
    var b, now := Before(s, run, i), run[i].now;
    assert Step(cfg, b, now, run[i].event, run[i].after);
    if i == 0 {
      InitGood(cfg, s, now);
    } else {
      RunGood(cfg, s, run, i - 1);
      HealthyLater(cfg, b, run[i - 1].now, now);
    }
    StepKeeps(cfg, b, now, run[i].event, run[i].after);
    StepDoes(cfg, b, now, run[i].event, run[i].after);
  }

  lemma {:induction false} InitGood(cfg: Config, s: Pool, now: int)
    requires Init(s)
    ensures Inv(cfg, s) && Calm(s) && Paced(cfg, s, now)
  {
    forall at ensures Remembers(cfg, s, now, at) {}
  }

  lemma {:induction false} HealthyLater(cfg: Config, s: Pool, now: int, later: int)
    requires Healthy(cfg, s, now) && now <= later
    ensures Awake(s) && Calm(s) && Paced(cfg, s, later)
  {
    Later(cfg, s, now, later);
  }

  /** In every run, after every step: the key of a connection by address is that address, the key of
      a connection by node is that node's, no peer appears twice in a map, our own key is never
      connected, and a detached peer is in neither map and is not being scanned. */
  lemma {:induction false} RunKeepsMaps(cfg: Config, s: Pool, run: seq<Moment>, i: nat)
    requires Run(cfg, s, run) && i < |run|
    ensures var t := run[i].after;
            && (forall at | at in t.ipMap :: t.ipMap[at] < |t.peers| && t.peers[t.ipMap[at]].at == Some(at))
            && (forall k | k in t.connected :: t.connected[k] < |t.peers| && t.peers[t.connected[k]].node == Some(k))
            && (forall a, b | a in t.ipMap && b in t.ipMap && t.ipMap[a] == t.ipMap[b] :: a == b)
            && (forall a, b | a in t.connected && b in t.connected && t.connected[a] == t.connected[b] :: a == b)
            && cfg.self !in t.connected
            && forall p | 0 <= p < |t.peers| && t.peers[p].detaching ::
                 && (forall at | at in t.ipMap :: t.ipMap[at] != p)
                 && (forall k | k in t.connected :: t.connected[k] != p)
                 && t.scanning != Some(p)
  {
    RunGood(cfg, s, run, i);
  }

  /** In every run, after every step: a scan is in flight, or the timer is armed for the earliest
      row, or no row is scheduled. */
  lemma {:induction false} RunStaysAwake(cfg: Config, s: Pool, run: seq<Moment>, i: nat)
    requires Run(cfg, s, run) && i < |run|
    ensures Awake(run[i].after)
  {
    RunGood(cfg, s, run, i);
  }

  /** In every run, a row that is available after some step was available from the start of it. */
  lemma {:induction false} RunNeverFreesRows(cfg: Config, s: Pool, run: seq<Moment>, i: nat, j: nat)
    requires Run(cfg, s, run) && i <= j <= |run|
    ensures Available(Before(s, run, j)) <= Available(Before(s, run, i))
    decreases j
  {
    hide Available, Run, Good;
    if i < j {
      RunNeverFreesRows(cfg, s, run, i, j - 1);
      RunGood(cfg, s, run, j - 1);
    }
  }

  lemma {:induction false} RunSpaced(cfg: Config, s: Pool, run: seq<Moment>, n: nat)
    requires Run(cfg, s, run) && n < |run|
    ensures Spaced(cfg, run[n].after.log)
  {
    hide Run, Inv, Awake, Remembers, Spaced;
    RunGood(cfg, s, run, n);
  }

  /** In every run: every attempt puts its row off by at least the minimal interval, and the next attempt
      comes at least that much later, if no connectTo of the row came between; if it was not verified
      either, the next attempt comes no earlier than the attempt's own delay says. */
  lemma {:induction false} RunSpacesScans(cfg: Config, s: Pool, run: seq<Moment>, n: nat, i: nat, j: nat)
    requires Run(cfg, s, run) && n < |run|
    requires var log := run[n].after.log;
             i < j < |log| && log[i].Scan? && log[j].Scan? && log[i].at == log[j].at
             && Undisturbed(log, i + 1, j, log[i].at, true)
    ensures var log := run[n].after.log;
            && log[i].wait >= cfg.minInterval
            && log[j].time >= log[i].time + cfg.minInterval
            && (Undisturbed(log, i + 1, j, log[i].at, false) ==> log[j].time >= log[i].time + log[i].wait)
  {
    hide Run, Spaced, Undisturbed;
    RunSpaced(cfg, s, run, n);
    SpacesScans(cfg, run[n].after.log, i, j);
  }

  /** In every run: the k-th attempt in a row at a row, counted since it was last verified or asked for, puts
      it off by at least the minimal interval times 2 to the k-1, unless an earlier attempt of that streak had
      a delay that does not fit an int when doubled. */
  lemma {:induction false} RunBacksOff(cfg: Config, s: Pool, run: seq<Moment>, n: nat, i: nat)
    requires Run(cfg, s, run) && n < |run|
    requires i < |run[n].after.log| && run[n].after.log[i].Scan?
    ensures var log := run[n].after.log;
            var k := Tries(log[..i + 1], log[i].at);
            k > 0 && (!Overflowed(log[..i], log[i].at) ==> log[i].wait >= cfg.minInterval * Pow2(k - 1))
  {
    hide Run, Spaced, Tries, Overflowed, Pow2;
    RunSpaced(cfg, s, run, n);
    BacksOff(cfg, run[n].after.log, i);
  }

  /** In every run: of two attempts at a row with nothing of that row between them, the second waits twice as
      long as the first, as a 32-bit int and at least the minimal interval; so the attempt after a delay that
      does not fit when doubled starts again at the minimal interval. */
  lemma {:induction false} RunDoublesWaits(cfg: Config, s: Pool, run: seq<Moment>, n: nat, i: nat, j: nat)
    requires Run(cfg, s, run) && n < |run|
    requires Next(run[n].after.log, i, j)
    ensures var log := run[n].after.log;
            && log[j].wait == NextWait(cfg, log[i].wait)
            && (log[i].wait <= MAX_INT < 2 * log[i].wait ==> log[j].wait == cfg.minInterval)
            && (2 * log[i].wait <= MAX_INT ==> log[j].wait == 2 * log[i].wait)
  {
    hide Run, Spaced;
    RunSpaced(cfg, s, run, n);
    DoublesWaits(cfg, run[n].after.log, i, j);
  }

  /** Detaching an identified connection leaves its row scheduled. */
  lemma {:induction false} DetachSchedules(cfg: Config, s: Pool, now: int, p: PeerId, t: Pool)
    requires p < |s.peers| && Good(cfg, s, now) && !s.peers[p].detaching && s.peers[p].at.Some?
    requires Step(cfg, s, now, Detach(p), t) && s.peers[p].at.value in s.rows
    ensures s.peers[p].at.value in Scheduled(t.rows)
  {
    assert Settled(s, p);
    DetachDoes(cfg, s, now, p, t);
  }

  // The key is that of a connection whose address is not known yet.
  ghost predicate Nowhere(s: Pool, key: NodeKey) {
    key in s.connected && s.connected[key] < |s.peers| && s.peers[s.connected[key]].at.None?
  }

  lemma {:induction false} RefreshExtends(cfg: Config, s: Pool, now: int, t: Pool)
    requires ScanRefreshes(cfg, s, now, t)
    ensures Extends(s, t)
    decreases |Due(s.rows, now)|
  {
    if s.scanning.None? && Scheduled(s.rows) != {} {
      var at :| Earliest(s.rows, at) && ScansOrWaits(cfg, s, now, at, t);
      if s.rows[at].next.value <= now && at in s.ipMap {
        DueShrinks(cfg, s.rows, now, at);
        RefreshExtends(cfg, PutOff(cfg, s, now, at), now, t);
      }
    }
  }

  // Detaching a peer leaves alone the address of another.
  lemma {:induction false} DetachLeaves(cfg: Config, s: Pool, now: int, p: PeerId, at: IpPort, t: Pool)
    requires p < |s.peers| && Detaches(cfg, s, now, p, t) && at in s.ipMap && s.ipMap[at] != p
    ensures at in t.ipMap && t.ipMap[at] == s.ipMap[at]
  {
    hide Closes;
    if !s.peers[p].detaching && s.peers[p].at.Some? {
      var s1, own := StartDetach(s, p), s.peers[p].at.value;
      var u :| Closes(cfg, s1, now, p, own, u) && p < |u.peers| && t == SetPeer(u, p, u.peers[p].(at := None));
      ClosesLeaves(cfg, s1, now, p, own, at, u);
    }
  }

  lemma {:induction false} ClosesLeaves(cfg: Config, s: Pool, now: int, p: PeerId, own: IpPort, at: IpPort, t: Pool)
    requires Closes(cfg, s, now, p, own, t) && at in s.ipMap && s.ipMap[at] != p
    ensures at in t.ipMap && t.ipMap[at] == s.ipMap[at]
  {
    hide ScanRefreshes;
    var s1 := if s.scanning == Some(p) then s.(scanning := None) else s;
    var s2 := if own in s.ipMap && s.ipMap[own] == p
              then ScanSet(cfg, s1.(ipMap := s1.ipMap - {own}), now, own) else s1;
    if s.scanning == Some(p) || s2.rows != s.rows { RefreshExtends(cfg, s2, now, t); }
  }

  lemma {:induction false} GreetSchedules(cfg: Config, s: Pool, now: int, p: PeerId, key: NodeKey, guess: IpPort,
                                          t: Pool)
    requires Greeting(cfg, s, p, key) && Healthy(cfg, s, now) && Greets(cfg, s, now, p, key, guess, t)
    requires (key == cfg.self || key in s.connected) && s.peers[p].at.Some? && s.peers[p].at.value in s.rows
    ensures var at := s.peers[p].at.value;
            if key != cfg.self && Nowhere(s, key) then at in t.ipMap && t.ipMap[at] == s.connected[key]
            else at in Scheduled(t.rows)
  {
    hide Detaches, SavesPeer, Healthy;
    var (keep, s1) := Connected(cfg, s, p, key, s.peers[p].at);
    var s2 := SetPeer(s1, p, s1.peers[p].(node := None));
    SameSchedule'(cfg, s, now, s2);
    if key != cfg.self && Nowhere(s, key) {
      DetachLeaves(cfg, s2, now, p, s.peers[p].at.value, t);
    } else {
      DetachDoes(cfg, s2, now, p, t);
    }
  }

  lemma {:induction false} VerifiesExtends(cfg: Config, s: Pool, now: int, p: PeerId, t: Pool)
    requires p < |s.peers| && Verifies(cfg, s, now, p, t)
    ensures Extends(s, t) && t.rows.Keys == s.rows.Keys
  {
    hide ScanRefreshes;
    if s.scanning == Some(p) {
      var u := Unschedule(cfg, s, s.peers[p]).(scanning := None);
      RefreshExtends(cfg, u, now, t);
      RefreshLogs(cfg, u, now, t);
    }
  }

  /** A refused hello, after which the peer is detached and its row may just have been unscheduled: the row is
      scheduled again, unless the connection already known under that key had no address and is now
      identified by this one. */
  lemma {:induction false} HelloSchedules(cfg: Config, s: Pool, now: int, p: PeerId, key: NodeKey, guess: IpPort,
                                          t: Pool)
    requires Good(cfg, s, now) && Step(cfg, s, now, HelloFrom(p, key, guess), t)
    requires (key == cfg.self || key in s.connected) && s.peers[p].at.Some? && s.peers[p].at.value in s.rows
    ensures var at := s.peers[p].at.value;
            if key != cfg.self && Nowhere(s, key) then at in t.ipMap && t.ipMap[at] == s.connected[key]
            else at in Scheduled(t.rows)
  {
    hide Verifies, Greets, Healthy, Inv;
    var peer := s.peers[p];
    var s1 := SetPeer(s, p, peer.(node := Some(key)));
    var s2: Pool :| (if peer.client then Verifies(cfg, s1, now, p, s2) else s2 == s1)
                    && p < |s2.peers| && Greets(cfg, s2, now, p, key, guess, t);
    SameSchedule'(cfg, s, now, s1);
    VerifiesKeeps(cfg, s, s1, now, p, key, s2);
    if peer.client {
      ScanningStays(cfg, s, p, key);
      VerifiesDoes(cfg, s1, now, p, s2);
      VerifiesExtends(cfg, s1, now, p, s2);
    }
    KnownStays(cfg, s, s2, p, key);
    GreetSchedules(cfg, s2, now, p, key, guess, t);
  }

  lemma {:induction false} ScanningStays(cfg: Config, s: Pool, p: PeerId, key: NodeKey)
    requires Inv(cfg, s) && p < |s.peers|
    ensures ScanningOk(SetPeer(s, p, s.peers[p].(node := Some(key))))
  {}

  // The connection under the key is another one, and nothing happened to it.
  lemma {:induction false} KnownStays(cfg: Config, s: Pool, t: Pool, p: PeerId, key: NodeKey)
    requires Inv(cfg, s) && p < |s.peers| && Greeting(cfg, t, p, key)
    requires Extends(SetPeer(s, p, s.peers[p].(node := Some(key))), t)
    ensures t.connected == s.connected && Nowhere(t, key) == Nowhere(s, key) && t.peers[p].at == s.peers[p].at
  {}
}
