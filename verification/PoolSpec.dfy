/**
 The peer connection pool and scan scheduler of src/ConnectionPool/ConnectionPool.cpp, with
 Peer::detach and the hello step of src/Peer/Peer.cpp as its partners.  A step is a relation between
 the state before and after: the database may return equally early rows in any order.
 */
module PoolSpec {
  import opened Wrappers

  datatype IpPort = IpPort(ip: string, port: int)

  type NodeKey = string

  type PeerId = nat

  /** `at` is the address the peer is identified by, `node` its public key once a hello brought one;
      detaching clears both. */
  datatype Peer = Peer(at: Option<IpPort>, node: Option<NodeKey>, client: bool, helloed: bool, detaching: bool)

  // A row of the PeerIps table; no `next` means not scheduled for scanning.
  datatype Row = Row(next: Option<int>, interval: int)

  // History, for stating how scan attempts are spaced; no operation reads it.  `wait` is the delay until the
  // row is due again.
  datatype Entry = Scan(at: IpPort, time: int, wait: int) | Verified(at: IpPort) | Requested(at: IpPort)

  datatype RawConfig = RawConfig(self: NodeKey, minInterval: int, lowWater: int)

  // PEER_SCAN_INTERVAL_MIN is positive.
  type Config = c: RawConfig | c.minInterval > 0 witness RawConfig("", 60, 4)

  datatype Pool = Pool(
    peers: seq<Peer>,
    ipMap: map<IpPort, PeerId>,
    connected: map<NodeKey, PeerId>,
    scanning: Option<PeerId>,
    timer: Option<int>,
    rows: map<IpPort, Row>,
    log: seq<Entry>)

  const MAX_INT := 0x7FFF_FFFF

  // The value a 32-bit int keeps.
  function Wrap32(x: int): int { (x + 0x8000_0000) % 0x1_0000_0000 - 0x8000_0000 }

  ////////// The table //////////

  ghost function Scheduled(rows: map<IpPort, Row>): set<IpPort> {
    set at | at in rows && rows[at].next.Some?
  }

  ghost function Due(rows: map<IpPort, Row>, now: int): set<IpPort> {
    set at | at in rows && rows[at].next.Some? && rows[at].next.value <= now
  }

  // The row a query ordered by ScanNext may return first.
  ghost predicate Earliest(rows: map<IpPort, Row>, at: IpPort) {
    && at in Scheduled(rows)
    && forall b | b in Scheduled(rows) :: rows[at].next.value <= rows[b].next.value
  }

  // Rows that may be connected to without a scan.
  ghost function Available(s: Pool): set<IpPort> {
    set at | at in s.rows && s.rows[at].next.None? && at !in s.ipMap
  }

  ////////// Connecting //////////

  // peerConnect, when the address is not in the map
  function Connect(s: Pool, at: IpPort): Pool {
    s.(peers := s.peers + [Peer(Some(at), None, true, false, false)], ipMap := s.ipMap[at := |s.peers|])
  }

  // The interval a scan of the row waits, and the row it leaves.
  function Wait(cfg: Config, row: Row): int {
    if row.interval < cfg.minInterval then cfg.minInterval else row.interval
  }

  function ScannedRow(cfg: Config, row: Row, now: int): Row {
    Row(Some(now + Wait(cfg, row)), Wrap32(2 * Wait(cfg, row)))
  }

  // The state when scanRefresh has put off the row it is about to scan.
  ghost function PutOff(cfg: Config, s: Pool, now: int, at: IpPort): Pool
    requires at in s.rows
  {
    s.(timer := None, rows := s.rows[at := ScannedRow(cfg, s.rows[at], now)],
       log := s.log + [Scan(at, now, Wait(cfg, s.rows[at]))])
  }

  lemma {:induction false} DueShrinks(cfg: Config, rows: map<IpPort, Row>, now: int, at: IpPort)
    requires at in Due(rows, now)
    ensures Due(rows[at := ScannedRow(cfg, rows[at], now)], now) == Due(rows, now) - {at}
    ensures |Due(rows[at := ScannedRow(cfg, rows[at], now)], now)| < |Due(rows, now)|
  {}

  /** scanRefresh, with the clock at `now` during the call.  Its recursion ends: every round puts a
      due row off into the future. */
  ghost predicate ScanRefreshes(cfg: Config, s: Pool, now: int, t: Pool)
    decreases |Due(s.rows, now)|
  {
    if s.scanning.Some? then t == s
    else if Scheduled(s.rows) == {} then t == s.(timer := None)
    else exists at :: Earliest(s.rows, at) && ScansOrWaits(cfg, s, now, at, t)
  }

  // What scanRefresh does with the earliest row.
  ghost predicate ScansOrWaits(cfg: Config, s: Pool, now: int, at: IpPort, t: Pool)
    requires at in Scheduled(s.rows)
    decreases |Due(s.rows, now)|, 0
  {
    if now < s.rows[at].next.value then t == s.(timer := s.rows[at].next)
    else
      DueShrinks(cfg, s.rows, now, at);
      var s1 := PutOff(cfg, s, now, at);
      if at in s.ipMap then ScanRefreshes(cfg, s1, now, t)
      else t == Connect(s1, at).(scanning := Some(|s.peers|))
  }

  lemma {:induction false} AvailableShrinks(s: Pool, at: IpPort)
    requires at in Available(s)
    ensures Available(Connect(s, at)) == Available(s) - {at}
    ensures |Available(Connect(s, at))| < |Available(s)|
  {}

  /** policyLowWater.  Its recursion ends: every round takes an available row. */
  ghost predicate LowWater(cfg: Config, s: Pool, t: Pool)
    decreases |Available(s)|
  {
    if |s.connected| > cfg.lowWater || Available(s) == {} then t == s
    else exists at :: at in Available(s) && LowWaterTakes(cfg, s, at, t)
  }

  ghost predicate LowWaterTakes(cfg: Config, s: Pool, at: IpPort, t: Pool)
    requires at in Available(s)
    decreases |Available(s)|, 0
  {
    AvailableShrinks(s, at);
    LowWater(cfg, Connect(s, at), t)
  }

  // savePeer
  ghost predicate SavesPeer(cfg: Config, s: Pool, now: int, at: IpPort, t: Pool) {
    if at in s.rows then t == s
    else ScanRefreshes(cfg, s.(rows := s.rows[at := Row(Some(0), 0)]), now, t)
  }

  // connectTo
  ghost predicate ConnectsTo(cfg: Config, s: Pool, now: int, at: IpPort, t: Pool) {
    ScanRefreshes(cfg, s.(rows := s.rows[at := Row(Some(0), 0)], log := s.log + [Requested(at)]), now, t)
  }

  ////////// Peers //////////

  // peerVerified
  ghost predicate Verifies(cfg: Config, s: Pool, now: int, p: PeerId, t: Pool)
    requires p < |s.peers|
  {
    if s.scanning != Some(p) then t == s
    else ScanRefreshes(cfg, Unschedule(cfg, s, s.peers[p]).(scanning := None), now, t)
  }

  // A completed scan takes its row off the schedule, unless we found ourselves.
  function Unschedule(cfg: Config, s: Pool, p: Peer): Pool {
    if p.node == Some(cfg.self) || p.at.None? || p.at.value !in s.rows then s
    else s.(rows := s.rows[p.at.value := Row(None, 0)], log := s.log + [Verified(p.at.value)])
  }

  // peerConnected: whether to keep the connection
  function Connected(cfg: Config, s: Pool, p: PeerId, key: NodeKey, at: Option<IpPort>): (bool, Pool)
    requires key in s.connected ==> s.connected[key] < |s.peers|
  {
    if key == cfg.self then (false, s)
    else if key !in s.connected then (true, s.(connected := s.connected[key := p]))
    else
      var known := s.connected[key];
      if at.Some? && s.peers[known].at.None? then
        (false, s.(peers := s.peers[known := s.peers[known].(at := at)], ipMap := s.ipMap[at.value := known]))
      else (false, s)
  }

  // peerDisconnected
  function Disconnected(s: Pool, p: PeerId, key: NodeKey): Pool {
    if key in s.connected && s.connected[key] == p then s.(connected := s.connected - {key}) else s
  }

  // peerScanSet
  function ScanSet(cfg: Config, s: Pool, now: int, at: IpPort): Pool {
    if at in s.rows && s.rows[at].next.None?
    then s.(rows := s.rows[at := Row(Some(now + cfg.minInterval), cfg.minInterval)])
    else s
  }

  // peerClosed
  ghost predicate Closes(cfg: Config, s: Pool, now: int, p: PeerId, at: IpPort, t: Pool) {
    var s1 := if s.scanning == Some(p) then s.(scanning := None) else s;
    var s2 := if at in s.ipMap && s.ipMap[at] == p
              then ScanSet(cfg, s1.(ipMap := s1.ipMap - {at}), now, at) else s1;
    if s.scanning == Some(p) || s2.rows != s.rows then ScanRefreshes(cfg, s2, now, t) else t == s2
  }

  function SetPeer(s: Pool, p: PeerId, peer: Peer): Pool
    requires p < |s.peers|
  {
    s.(peers := s.peers[p := peer])
  }

  // Peer::detach, up to the call of peerClosed
  function StartDetach(s: Pool, p: PeerId): Pool
    requires p < |s.peers|
  {
    var peer := s.peers[p];
    var s1 := if peer.node.Some? then Disconnected(s, p, peer.node.value) else s;
    SetPeer(s1, p, peer.(detaching := true, node := None))
  }

  // Peer::detach
  ghost predicate Detaches(cfg: Config, s: Pool, now: int, p: PeerId, t: Pool)
    requires p < |s.peers|
  {
    if s.peers[p].detaching then t == s
    else
      var s1 := StartDetach(s, p);
      if s1.peers[p].at.None? then t == s1
      else exists u: Pool :: Closes(cfg, s1, now, p, s1.peers[p].at.value, u) && p < |u.peers|
                             && t == SetPeer(u, p, u.peers[p].(at := None))
  }

  /** The hello step: peerVerified for an outbound peer, then peerConnected; a refused peer loses its
      key and is detached, an accepted inbound one has its guessed address saved. */
  ghost predicate Hello(cfg: Config, s: Pool, now: int, p: PeerId, key: NodeKey, guess: IpPort, t: Pool)
    requires p < |s.peers|
  {
    var peer := s.peers[p];
    var s1 := SetPeer(s, p, peer.(node := Some(key)));
    exists s2: Pool :: (if peer.client then Verifies(cfg, s1, now, p, s2) else s2 == s1)
      && p < |s2.peers| && Greets(cfg, s2, now, p, key, guess, t)
  }

  // The hello step from peerConnected on.
  ghost predicate Greets(cfg: Config, s: Pool, now: int, p: PeerId, key: NodeKey, guess: IpPort, t: Pool)
    requires p < |s.peers|
  {
    && (key in s.connected ==> s.connected[key] < |s.peers|)
    && var (keep, s1) := Connected(cfg, s, p, key, s.peers[p].at);
       if keep then Accepts(cfg, s1, now, p, guess, t)
       else Detaches(cfg, SetPeer(s1, p, s1.peers[p].(node := None)), now, p, t)
  }

  ghost predicate Accepts(cfg: Config, s: Pool, now: int, p: PeerId, guess: IpPort, t: Pool)
    requires p < |s.peers|
  {
    var peer := s.peers[p];
    var s1 := SetPeer(s, p, peer.(client := false, helloed := true));
    if peer.client then t == s1 else SavesPeer(cfg, s1, now, guess, t)
  }

  ////////// Steps //////////

  datatype Event =
    | Start
    | PolicyFires
    | ScanHandler(stale: bool)
    | SavePeer(at: IpPort)
    | ConnectTo(at: IpPort)
    | Accept
    | HelloFrom(p: PeerId, key: NodeKey, guess: IpPort)
    | Detach(p: PeerId)

  // What the event loop may run next.
  ghost predicate Enabled(s: Pool, now: int, e: Event) {
    match e
    case ScanHandler(stale) => stale || (s.timer.Some? && s.timer.value <= now)
    case HelloFrom(p, _, _) => p < |s.peers| && !s.peers[p].detaching && !s.peers[p].helloed
    case Detach(p) => p < |s.peers|
    case _ => true
  }

  ghost predicate Step(cfg: Config, s: Pool, now: int, e: Event, t: Pool) {
    Enabled(s, now, e) &&
    match e
    case Start => exists u :: LowWater(cfg, s, u) && ScanRefreshes(cfg, u, now, t)
    case PolicyFires => LowWater(cfg, s, t)
    case ScanHandler(stale) => ScanRefreshes(cfg, if stale then s else s.(timer := None), now, t)
    case SavePeer(at) => SavesPeer(cfg, s, now, at, t)
    case ConnectTo(at) => ConnectsTo(cfg, s, now, at, t)
    case Accept => t == s.(peers := s.peers + [Peer(None, None, false, false, false)])
    case HelloFrom(p, key, guess) => Hello(cfg, s, now, p, key, guess, t)
    case Detach(p) => Detaches(cfg, s, now, p, t)
  }

  // The database as the last run left it, and nothing else.
  ghost predicate Init(s: Pool) {
    s.peers == [] && s.ipMap == map[] && s.connected == map[] && s.scanning == None && s.timer == None && s.log == []
  }

  datatype Moment = Moment(now: int, event: Event, after: Pool)

  // The state in which the i-th step is taken.
  function Before(s: Pool, run: seq<Moment>, i: nat): Pool
    requires i <= |run|
  {
    if i == 0 then s else run[i - 1].after
  }

  /** A run: start() first, then any steps, on a clock that does not go back. */
  ghost predicate Run(cfg: Config, s: Pool, run: seq<Moment>)
  {
    && Init(s)
    && run != [] && run[0].event == Start
    && forall i | 0 <= i < |run| ::
         && Step(cfg, Before(s, run, i), run[i].now, run[i].event, run[i].after)
         && (i > 0 ==> run[i - 1].now <= run[i].now)
  }
}
