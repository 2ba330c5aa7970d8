/**
 How the pool's history spaces the scan attempts at a row: what the log of attempts says by itself, and what
 the table remembers of it.
 */
module PoolPacing {
  import opened Wrappers
  import opened PoolSpec

  ////////// Reading the log //////////

  // An attempt: when, for how long it put the row off, and whether it was verified since.
  datatype Try = Try(time: int, wait: int, verified: bool)

  /** The last scan of a row that no connectTo followed. */
  ghost function LastTry(log: seq<Entry>, at: IpPort): Option<Try> {
    if log == [] then None
    else
      var rest, e := log[..|log| - 1], log[|log| - 1];
      if e.at != at then LastTry(rest, at)
      else match e
        case Scan(_, time, wait) => Some(Try(time, wait, false))
        case Requested(_) => None
        case Verified(_) =>
          match LastTry(rest, at)
          case None => None
          case Some(t) => Some(t.(verified := true))
  }

  /** The attempts at a row since it was last verified or asked for. */
  ghost function Tries(log: seq<Entry>, at: IpPort): nat {
    if log == [] then 0
    else
      var rest, e := log[..|log| - 1], log[|log| - 1];
      if e.at != at then Tries(rest, at) else if e.Scan? then Tries(rest, at) + 1 else 0
  }

  /** One of those attempts had a delay that does not fit an int when doubled. */
  ghost predicate Overflowed(log: seq<Entry>, at: IpPort) {
    log != [] &&
    var rest, e := log[..|log| - 1], log[|log| - 1];
    if e.at != at then Overflowed(rest, at)
    else e.Scan? && (2 * e.wait > MAX_INT || Overflowed(rest, at))
  }

  // The delay of the attempt after one with delay `wait`.
  function NextWait(cfg: Config, wait: int): int {
    var doubled := Wrap32(2 * wait);
    if doubled < cfg.minInterval then cfg.minInterval else doubled
  }

  function Pow2(k: nat): nat { if k == 0 then 1 else 2 * Pow2(k - 1) }

  // How long an attempt puts off the next one.
  function Gap(cfg: Config, t: Try): int { if t.verified then cfg.minInterval else t.wait }

  // Every attempt came late enough after the last one at its row, and waits twice as long as that one.
  ghost predicate Spaced(cfg: Config, log: seq<Entry>) {
    log != [] ==>
      var rest, e := log[..|log| - 1], log[|log| - 1];
      && Spaced(cfg, rest)
      && (e.Scan? ==>
            && e.wait >= cfg.minInterval
            && match LastTry(rest, e.at)
               case None => true
               case Some(t) =>
                 e.time >= t.time + Gap(cfg, t) && (!t.verified ==> e.wait == NextWait(cfg, t.wait)))
  }

  // No entry of the log from `lo` up to `hi` is a request for the row (or, if asked, a success).
  ghost predicate Undisturbed(log: seq<Entry>, lo: nat, hi: nat, at: IpPort, success: bool) {
    forall m | lo <= m < hi && m < |log| && log[m].at == at :: !log[m].Requested? && (success || !log[m].Verified?)
  }

  lemma {:induction false} LastTryAfter(cfg: Config, log: seq<Entry>, i: nat, success: bool)
    requires Spaced(cfg, log) && i < |log| && log[i].Scan?
    requires Undisturbed(log, i + 1, |log|, log[i].at, success)
    ensures LastTry(log, log[i].at).Some?
    ensures var t := LastTry(log, log[i].at).value;
            && t.wait >= cfg.minInterval && t.time >= log[i].time
            && (success || t == Try(log[i].time, log[i].wait, false) || t.time >= log[i].time + log[i].wait)
    decreases |log|
  {
    var rest, e := log[..|log| - 1], log[|log| - 1];
    if i < |rest| {
      assert Undisturbed(rest, i + 1, |rest|, rest[i].at, success);
      LastTryAfter(cfg, rest, i, success);
    }
  }

  lemma {:induction false} LastTryIs(log: seq<Entry>, i: nat, j: nat)
    requires i < j <= |log| && log[i].Scan? && forall m | i < m < j :: log[m].at != log[i].at
    ensures LastTry(log[..j], log[i].at) == Some(Try(log[i].time, log[i].wait, false))
    decreases j
  {
    assert log[..j][..j - 1] == log[..j - 1];
    if i < j - 1 { LastTryIs(log, i, j - 1); }
  }

  lemma {:induction false} SpacedPrefix(cfg: Config, log: seq<Entry>, n: nat)
    requires Spaced(cfg, log) && n <= |log|
    ensures Spaced(cfg, log[..n])
    decreases |log|
  {
    if n < |log| {
      SpacedPrefix(cfg, log[..|log| - 1], n);
      assert log[..|log| - 1][..n] == log[..n];
    } else {
      assert log[..n] == log;
    }
  }

  lemma {:induction false} DoublePow(cfg: Config, k: nat)
    ensures cfg.minInterval * Pow2(k + 1) == 2 * (cfg.minInterval * Pow2(k))
  {}

  // No attempt of the streak but perhaps the last one overflowed.
  ghost predicate Early(log: seq<Entry>, at: IpPort) {
    log == [] ||
    var rest, e := log[..|log| - 1], log[|log| - 1];
    if e.at != at then Early(rest, at) else e.Scan? ==> !Overflowed(rest, at)
  }

  /** The delay after k attempts in a row, from the log alone. */
  lemma {:induction false} StreakWaits(cfg: Config, log: seq<Entry>, at: IpPort)
    requires Spaced(cfg, log) && Tries(log, at) > 0
    ensures LastTry(log, at).Some? && !LastTry(log, at).value.verified
    ensures 2 * LastTry(log, at).value.wait > MAX_INT ==> Overflowed(log, at)
    ensures Early(log, at) ==> LastTry(log, at).value.wait >= cfg.minInterval * Pow2(Tries(log, at) - 1)
  {
    var rest, e := log[..|log| - 1], log[|log| - 1];
    var k := Tries(rest, at);
    if e.at != at {
      StreakWaits(cfg, rest, at);
    } else if k == 0 {
      assert cfg.minInterval * Pow2(0) == cfg.minInterval;
    } else {
      StreakWaits(cfg, rest, at);
      DoublePow(cfg, k - 1);
      if !Overflowed(rest, at) { NotEarly(rest, at); }
    }
  }

  lemma {:induction false} NotEarly(log: seq<Entry>, at: IpPort)
    requires !Overflowed(log, at)
    ensures Early(log, at)
  {
    if log != [] && log[|log| - 1].at != at { NotEarly(log[..|log| - 1], at); }
  }

  lemma {:induction false} SpacesScans(cfg: Config, log: seq<Entry>, i: nat, j: nat)
    requires Spaced(cfg, log) && i < j < |log| && log[i].Scan? && log[j].Scan? && log[i].at == log[j].at
    requires Undisturbed(log, i + 1, j, log[i].at, true)
    ensures log[i].wait >= cfg.minInterval && log[j].time >= log[i].time + cfg.minInterval
    ensures Undisturbed(log, i + 1, j, log[i].at, false) ==> log[j].time >= log[i].time + log[i].wait
  {
    SpacedPrefix(cfg, log, i + 1);
    SpacedPrefix(cfg, log, j);
    SpacedPrefix(cfg, log, j + 1);
    assert log[..j + 1][..j] == log[..j];
    var before, at := log[..j], log[i].at;
    assert Undisturbed(before, i + 1, j, at, true);
    LastTryAfter(cfg, before, i, true);
    if Undisturbed(log, i + 1, j, at, false) {
      assert Undisturbed(before, i + 1, j, at, false);
      LastTryAfter(cfg, before, i, false);
    }
  }

  lemma {:induction false} BacksOff(cfg: Config, log: seq<Entry>, i: nat)
    requires Spaced(cfg, log) && i < |log| && log[i].Scan?
    ensures var k := Tries(log[..i + 1], log[i].at);
            k > 0 && (!Overflowed(log[..i], log[i].at) ==> log[i].wait >= cfg.minInterval * Pow2(k - 1))
  {
    SpacedPrefix(cfg, log, i + 1);
    assert log[..i + 1][..i] == log[..i];
    StreakWaits(cfg, log[..i + 1], log[i].at);
  }

  // Entry j is an attempt, and the entry of its row before it is the attempt i.
  ghost predicate Next(log: seq<Entry>, i: nat, j: nat) {
    && i < j < |log| && log[i].Scan? && log[j].Scan? && log[i].at == log[j].at
    && forall m | i < m < j :: log[m].at != log[i].at
  }

  lemma {:induction false} DoublesWaits(cfg: Config, log: seq<Entry>, i: nat, j: nat)
    requires Spaced(cfg, log) && Next(log, i, j)
    ensures log[j].wait == NextWait(cfg, log[i].wait)
    ensures log[i].wait <= MAX_INT < 2 * log[i].wait ==> log[j].wait == cfg.minInterval
    ensures 2 * log[i].wait <= MAX_INT ==> log[j].wait == 2 * log[i].wait
  {
    SpacedPrefix(cfg, log, i + 1);
    SpacedPrefix(cfg, log, j + 1);
    assert log[..j + 1][..j] == log[..j];
    LastTryIs(log, i, j);
  }

  ////////// What the table remembers //////////

  // What the table knows of the last attempt at a row.
  ghost predicate Remembers(cfg: Config, s: Pool, now: int, at: IpPort) {
    match LastTry(s.log, at)
    case None => true
    case Some(t) =>
      && at in s.rows && t.time <= now && t.wait >= cfg.minInterval
      && match s.rows[at].next
         case None => t.verified
         case Some(n) => n >= t.time + Gap(cfg, t) && (!t.verified ==> s.rows[at].interval == Wrap32(2 * t.wait))
  }

  ghost predicate Paced(cfg: Config, s: Pool, now: int) {
    Spaced(cfg, s.log) && forall at :: Remembers(cfg, s, now, at)
  }

  lemma {:induction false} PutOffPaced(cfg: Config, s: Pool, now: int, at: IpPort)
    requires Paced(cfg, s, now) && at in Due(s.rows, now)
    ensures Paced(cfg, PutOff(cfg, s, now, at), now)
  {
    var s1 := PutOff(cfg, s, now, at);
    assert s1.log[..|s.log|] == s.log;
    assert Remembers(cfg, s, now, at);
    forall b ensures Remembers(cfg, s1, now, b) {
      if b != at { assert Remembers(cfg, s, now, b); }
    }
  }

  lemma {:induction false} RefreshPaces(cfg: Config, s: Pool, now: int, t: Pool)
    requires Paced(cfg, s, now) && ScanRefreshes(cfg, s, now, t)
    ensures Paced(cfg, t, now)
    decreases |Due(s.rows, now)|
  {
    if s.scanning.None? && Scheduled(s.rows) != {} {
      var at :| Earliest(s.rows, at) && ScansOrWaits(cfg, s, now, at, t);
      if s.rows[at].next.value <= now {
        DueShrinks(cfg, s.rows, now, at);
        var s1 := PutOff(cfg, s, now, at);
        PutOffPaced(cfg, s, now, at);
        if at in s.ipMap {
          RefreshPaces(cfg, s1, now, t);
        } else {
          SameTable(cfg, s1, now, t);
        }
      } else {
        SameTable(cfg, s, now, t);
      }
    } else {
      SameTable(cfg, s, now, t);
    }
  }

  lemma {:induction false} SameTable(cfg: Config, s: Pool, now: int, t: Pool)
    requires Paced(cfg, s, now) && t.rows == s.rows && t.log == s.log
    ensures Paced(cfg, t, now)
  {
    forall at ensures Remembers(cfg, t, now, at) { assert Remembers(cfg, s, now, at); }
  }

  // One row changes, and the log is left alone or prolonged by what happened to that row.
  lemma {:induction false} RowChanged(cfg: Config, s: Pool, now: int, at: IpPort, row: Row, t: Pool)
    requires Paced(cfg, s, now) && t.rows == s.rows[at := row]
    requires t.log == s.log || (exists e: Entry :: !e.Scan? && e.at == at && t.log == s.log + [e])
    requires Remembers(cfg, t, now, at)
    ensures Paced(cfg, t, now)
  {
    if t.log != s.log {
      var e: Entry :| !e.Scan? && e.at == at && t.log == s.log + [e];
      assert t.log[..|s.log|] == s.log;
    }
    forall b ensures Remembers(cfg, t, now, b) {
      if b != at { assert Remembers(cfg, s, now, b); }
    }
  }
}
