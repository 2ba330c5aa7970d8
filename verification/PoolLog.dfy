/**
 The pool's history is what happened: every attempt scanRefresh makes is in the log with its delay, and
 nothing else is, but for the verifications and the requests that end a streak of attempts.
 */
module PoolLog {
  import opened Wrappers
  import opened PoolSpec

  // A due row was scanned: the entry has its delay, and the table what follows from it.
  ghost predicate Logged(cfg: Config, before: map<IpPort, Row>, now: int, after: map<IpPort, Row>, e: Entry) {
    && e.Scan? && e.time == now && e.at in Due(before, now) && e.wait == Wait(cfg, before[e.at])
    && e.at in after && after[e.at] == Row(Some(now + e.wait), Wrap32(2 * e.wait))
  }

  // Every entry from n on is of a row that was put off.
  ghost predicate OnlyScans(cfg: Config, s: Pool, now: int, t: Pool) {
    s.log <= t.log && forall m | |s.log| <= m < |t.log| :: Logged(cfg, s.rows, now, t.rows, t.log[m])
  }

  // Every row that was put off has such an entry.
  ghost predicate AllScans(s: Pool, t: Pool) {
    t.rows.Keys == s.rows.Keys
    && forall at | at in s.rows && t.rows[at] != s.rows[at] :: HasEntry(t.log, |s.log|, at)
  }

  ghost predicate HasEntry(log: seq<Entry>, n: nat, at: IpPort) { exists m | n <= m < |log| :: log[m].at == at }

  /** scanRefresh logs exactly the attempts it makes, with the delays it stores; the scan it leaves in flight
      is the last of them. */
  lemma {:induction false} RefreshLogs(cfg: Config, s: Pool, now: int, t: Pool)
    requires ScanRefreshes(cfg, s, now, t)
    ensures OnlyScans(cfg, s, now, t) && AllScans(s, t)
    ensures s.scanning.None? && t.scanning.Some? ==>
              && t.scanning.value < |t.peers| && |t.log| > |s.log|
              && t.peers[t.scanning.value].at == Some(t.log[|t.log| - 1].at)
    decreases |Due(s.rows, now)|
  {
    if s.scanning.None? && Scheduled(s.rows) != {} {
      var at :| Earliest(s.rows, at) && ScansOrWaits(cfg, s, now, at, t);
      if s.rows[at].next.value <= now {
        DueShrinks(cfg, s.rows, now, at);
        var s1 := PutOff(cfg, s, now, at);
        if at in s.ipMap {
          RefreshLogs(cfg, s1, now, t);
        } else {
          hide ScanRefreshes, ScansOrWaits;
          assert t.rows == s1.rows && t.log == s1.log;
          assert OnlyScans(cfg, s1, now, t) && AllScans(s1, t);
        }
        hide ScanRefreshes, ScansOrWaits, OnlyScans, AllScans;
        MoreOnly(cfg, s, now, at, t);
        MoreAll(cfg, s, now, at, t);
      }
    }
  }

  lemma {:induction false} MoreOnly(cfg: Config, s: Pool, now: int, at: IpPort, t: Pool)
    requires at in Due(s.rows, now)
    requires OnlyScans(cfg, PutOff(cfg, s, now, at), now, t) && AllScans(PutOff(cfg, s, now, at), t)
    ensures OnlyScans(cfg, s, now, t)
  {
    var s1 := PutOff(cfg, s, now, at);
    DueShrinks(cfg, s.rows, now, at);
    forall m | |s1.log| <= m < |t.log| ensures t.log[m].at != at {
      assert Logged(cfg, s1.rows, now, t.rows, t.log[m]);
    }
    assert t.rows[at] == s1.rows[at];
    hide Due, AllScans, HasEntry;
    forall m | |s.log| <= m < |t.log| ensures Logged(cfg, s.rows, now, t.rows, t.log[m]) {
      if m == |s.log| {
        assert t.log[m] == s1.log[m];
      } else {
        assert Logged(cfg, s1.rows, now, t.rows, t.log[m]);
      }
    }
  }

  lemma {:induction false} MoreAll(cfg: Config, s: Pool, now: int, at: IpPort, t: Pool)
    requires at in s.rows && PutOff(cfg, s, now, at).log <= t.log && AllScans(PutOff(cfg, s, now, at), t)
    ensures AllScans(s, t)
  {
    var s1 := PutOff(cfg, s, now, at);
    forall b | b in s.rows && t.rows[b] != s.rows[b] ensures HasEntry(t.log, |s.log|, b) {
      if b == at {
        assert t.log[|s.log|] == s1.log[|s.log|];
      } else {
        assert HasEntry(t.log, |s1.log|, b);
      }
    }
  }

  ////////// What ends a streak //////////

  // Scans carry the time of their step; a verification is a hello of the peer being scanned, from someone
  // else; a request is a connectTo.
  ghost predicate Caused(cfg: Config, s: Pool, now: int, ev: Event, e: Entry) {
    match e
    case Scan(_, time, _) => time == now
    case Verified(at) =>
      && ev.HelloFrom? && ev.key != cfg.self && s.scanning == Some(ev.p)
      && ev.p < |s.peers| && s.peers[ev.p].at == Some(at)
    case Requested(at) => ev == ConnectTo(at)
  }

  ghost predicate Grows(cfg: Config, base: Pool, now: int, ev: Event, s: Pool, t: Pool) {
    s.log <= t.log && forall m | |s.log| <= m < |t.log| :: Caused(cfg, base, now, ev, t.log[m])
  }

  lemma {:induction false} Chains(cfg: Config, base: Pool, now: int, ev: Event, s: Pool, u: Pool, t: Pool)
    requires Grows(cfg, base, now, ev, s, u) && Grows(cfg, base, now, ev, u, t)
    ensures Grows(cfg, base, now, ev, s, t)
  {
    forall m | |s.log| <= m < |t.log| ensures Caused(cfg, base, now, ev, t.log[m]) {
      if m < |u.log| { assert t.log[m] == u.log[m]; }
    }
  }

  lemma {:induction false} RefreshGrows(cfg: Config, base: Pool, now: int, ev: Event, s: Pool, t: Pool)
    requires ScanRefreshes(cfg, s, now, t)
    ensures Grows(cfg, base, now, ev, s, t)
  {
    RefreshLogs(cfg, s, now, t);
    hide ScanRefreshes, AllScans;
    forall m | |s.log| <= m < |t.log| ensures Caused(cfg, base, now, ev, t.log[m]) {
      assert Logged(cfg, s.rows, now, t.rows, t.log[m]);
    }
  }

  lemma {:induction false} LowWaterGrows(cfg: Config, base: Pool, now: int, ev: Event, s: Pool, t: Pool)
    requires LowWater(cfg, s, t)
    ensures Grows(cfg, base, now, ev, s, t)
    decreases |Available(s)|
  {
    if |s.connected| <= cfg.lowWater && Available(s) != {} {
      var at :| at in Available(s) && LowWaterTakes(cfg, s, at, t);
      AvailableShrinks(s, at);
      LowWaterGrows(cfg, base, now, ev, Connect(s, at), t);
    }
  }

  lemma {:induction false} SavesGrows(cfg: Config, base: Pool, now: int, ev: Event, s: Pool, at: IpPort, t: Pool)
    requires SavesPeer(cfg, s, now, at, t)
    ensures Grows(cfg, base, now, ev, s, t)
  {
    if at !in s.rows { RefreshGrows(cfg, base, now, ev, s.(rows := s.rows[at := Row(Some(0), 0)]), t); }
  }

  lemma {:induction false} ClosesGrows(cfg: Config, base: Pool, now: int, ev: Event, s: Pool, p: PeerId,
                                       at: IpPort, t: Pool)
    requires Closes(cfg, s, now, p, at, t)
    ensures Grows(cfg, base, now, ev, s, t)
  {
    hide ScanRefreshes;
    var s1 := if s.scanning == Some(p) then s.(scanning := None) else s;
    var s2 := if at in s.ipMap && s.ipMap[at] == p
              then ScanSet(cfg, s1.(ipMap := s1.ipMap - {at}), now, at) else s1;
    if s.scanning == Some(p) || s2.rows != s.rows { RefreshGrows(cfg, base, now, ev, s2, t); }
  }

  lemma {:induction false} DetachGrows(cfg: Config, base: Pool, now: int, ev: Event, s: Pool, p: PeerId, t: Pool)
    requires p < |s.peers| && Detaches(cfg, s, now, p, t)
    ensures Grows(cfg, base, now, ev, s, t)
  {
    hide Closes;
    if !s.peers[p].detaching && s.peers[p].at.Some? {
      var s1, at := StartDetach(s, p), s.peers[p].at.value;
      var u :| Closes(cfg, s1, now, p, at, u) && p < |u.peers| && t == SetPeer(u, p, u.peers[p].(at := None));
      ClosesGrows(cfg, base, now, ev, s1, p, at, u);
    }
  }

  lemma {:induction false} HelloGrows(cfg: Config, s: Pool, now: int, p: PeerId, key: NodeKey, guess: IpPort, t: Pool)
    requires p < |s.peers| && Hello(cfg, s, now, p, key, guess, t)
    ensures Grows(cfg, s, now, HelloFrom(p, key, guess), s, t)
  {
    hide Verifies, Greets;
    var ev, peer := HelloFrom(p, key, guess), s.peers[p];
    var s1 := SetPeer(s, p, peer.(node := Some(key)));
    var s2: Pool :| (if peer.client then Verifies(cfg, s1, now, p, s2) else s2 == s1)
                    && p < |s2.peers| && Greets(cfg, s2, now, p, key, guess, t);
    if peer.client { VerifiesGrows(cfg, s, now, ev, s1, s2); }
    GreetsGrows(cfg, s, now, ev, s2, t);
    Chains(cfg, s, now, ev, s, s2, t);
  }

  lemma {:induction false} VerifiesGrows(cfg: Config, s: Pool, now: int, ev: Event, s1: Pool, s2: Pool)
    requires ev.HelloFrom? && ev.p < |s.peers| && s1 == SetPeer(s, ev.p, s.peers[ev.p].(node := Some(ev.key)))
    requires Verifies(cfg, s1, now, ev.p, s2)
    ensures Grows(cfg, s, now, ev, s, s2)
  {
    if s.scanning == Some(ev.p) {
      var u := Unschedule(cfg, s1, s1.peers[ev.p]).(scanning := None);
      RefreshGrows(cfg, s, now, ev, u, s2);
      Chains(cfg, s, now, ev, s, u, s2);
    }
  }

  lemma {:induction false} GreetsGrows(cfg: Config, base: Pool, now: int, ev: Event, s: Pool, t: Pool)
    requires ev.HelloFrom? && ev.p < |s.peers| && Greets(cfg, s, now, ev.p, ev.key, ev.guess, t)
    ensures Grows(cfg, base, now, ev, s, t)
  {
    hide Detaches, SavesPeer;
    var (keep, s1) := Connected(cfg, s, ev.p, ev.key, s.peers[ev.p].at);
    if keep {
      var s2 := SetPeer(s1, ev.p, s1.peers[ev.p].(client := false, helloed := true));
      if !s1.peers[ev.p].client { SavesGrows(cfg, base, now, ev, s2, ev.guess, t); }
    } else {
      DetachGrows(cfg, base, now, ev, SetPeer(s1, ev.p, s1.peers[ev.p].(node := None)), ev.p, t);
    }
  }

  /** No step takes from the log, and every entry it adds has its cause: so a streak of attempts ends only with
      a verification by someone else or with a connectTo of the row. */
  lemma {:induction false} StepLogs(cfg: Config, s: Pool, now: int, ev: Event, t: Pool)
    requires Step(cfg, s, now, ev, t)
    ensures Grows(cfg, s, now, ev, s, t)
  {
    hide Hello, Detaches, SavesPeer, ScanRefreshes, LowWater;
    match ev
    case Start =>
      var u :| LowWater(cfg, s, u) && ScanRefreshes(cfg, u, now, t);
      LowWaterGrows(cfg, s, now, ev, s, u);
      RefreshGrows(cfg, s, now, ev, u, t);
      Chains(cfg, s, now, ev, s, u, t);
    case PolicyFires => LowWaterGrows(cfg, s, now, ev, s, t);
    case ScanHandler(stale) => RefreshGrows(cfg, s, now, ev, if stale then s else s.(timer := None), t);
    case SavePeer(at) => SavesGrows(cfg, s, now, ev, s, at, t);
    case ConnectTo(at) =>
      var u := s.(rows := s.rows[at := Row(Some(0), 0)], log := s.log + [Requested(at)]);
      RefreshGrows(cfg, s, now, ev, u, t);
      Chains(cfg, s, now, ev, s, u, t);
    case Accept =>
    case HelloFrom(p, key, guess) => HelloGrows(cfg, s, now, p, key, guess, t);
    case Detach(p) => DetachGrows(cfg, s, now, ev, s, p, t);
  }
}
