/**
 The batch allocator of json/json_batchallocator.h as a state machine.  A block is `k` objects
 (objectPerAllocation); a batch has memory for k * n objects (allocateBatch) but is called full when its use
 reaches n (objectsPerPage).
 */
module BatchSpec {

  // used_ is slots * k objects past buffer_, end_ is `end` objects past it; `size` objects were allocated.
  datatype Batch = Batch(slots: nat, end: nat, size: nat)

  // The block that starts slot * k objects into a batch; batches are numbered as they are made.
  datatype Block = Block(batch: nat, slot: nat)

  // The list of batches runs from the last one made down to the first, a dummy without room.
  datatype State = State(k: nat, n: nat, batches: seq<Batch>, current: nat, free: seq<Block>, live: set<Block>)

  predicate Full(k: nat, b: Batch) { b.slots * k == b.end }

  /** allocateBatch */
  function NewBatch(k: nat, objects: nat): Batch { Batch(0, objects, k * objects) }

  function Start(k: nat, n: nat): State { State(k, n, [NewBatch(k, 0)], 0, [], {}) }

  // The first batch from number j down that is not full, or -1.
  function Room(s: State, j: int): (r: int)
    requires j < |s.batches|
    ensures r <= j || r == -1
    ensures r >= 0 ==> !Full(s.k, s.batches[r])
    ensures forall i | r < i <= j && 0 <= i :: Full(s.k, s.batches[i])
    decreases j
  {
    if j < 0 then -1 else if Full(s.k, s.batches[j]) then Room(s, j - 1) else j
  }

  // The current batch made one that is not full.
  function Advance(s: State): State
    requires s.current < |s.batches|
  {
    var r := Room(s, s.current);
    if r >= 0 then s.(current := r)
    else s.(batches := s.batches + [NewBatch(s.k, s.n)], current := |s.batches|)
  }

  /** allocate: the block and the state after. */
  function Allocate(s: State): (r: (Block, State))
    requires s.current < |s.batches|
  {
    if s.free != [] then (s.free[0], s.(free := s.free[1..], live := s.live + {s.free[0]}))
    else
      var a := Advance(s);
      (Block(a.current, a.batches[a.current].slots), Carve(a))
  }

  /** release of a live block */
  function Release(s: State, b: Block): State { s.(free := [b] + s.free, live := s.live - {b}) }

  datatype Step = Alloc | Free(b: Block)

  predicate Enabled(s: State, step: Step) {
    s.current < |s.batches| && (step.Free? ==> step.b in s.live)
  }

  function Next(s: State, step: Step): State
    requires Enabled(s, step)
  {
    match step case Alloc => Allocate(s).1 case Free(b) => Release(s, b)
  }

  ghost predicate Enables(s: State, steps: seq<Step>)
    decreases |steps|
  {
    steps == [] || (Enabled(s, steps[0]) && Enables(Next(s, steps[0]), steps[1..]))
  }

  ghost function Run(s: State, steps: seq<Step>): State
    requires Enables(s, steps)
    decreases |steps|
  {
    if steps == [] then s else Run(Next(s, steps[0]), steps[1..])
  }

  ////////// What every step keeps //////////

  predicate Carved(batches: seq<Batch>, b: Block) { b.batch < |batches| && b.slot < batches[b.batch].slots }

  // Every batch but the dummy is for n objects; the current batch is the last made, those after it in the list
  // are full.
  ghost predicate BatchesInv(s: State) {
    && s.current + 1 == |s.batches|
    && s.batches[0] == NewBatch(s.k, 0)
    && (forall j | 0 < j < |s.batches| :: s.batches[j].end == s.n && s.batches[j].size == s.k * s.n)
    && (forall j | 0 <= j < s.current :: Full(s.k, s.batches[j]))
  }

  // The blocks carved so far are the live ones and the free ones, each once.
  ghost predicate BlocksInv(s: State) {
    && (forall b | b in s.live :: Carved(s.batches, b) && b !in s.free)
    && (forall b | b in s.free :: Carved(s.batches, b))
    && (forall b | Carved(s.batches, b) :: b in s.live || b in s.free)
    && (forall i, j | 0 <= i < j < |s.free| :: s.free[i] != s.free[j])
    && |s.live| + |s.free| == SlotSum(s.batches)
  }

  function SlotSum(bs: seq<Batch>): nat { if bs == [] then 0 else bs[0].slots + SlotSum(bs[1..]) }

  // No batch is used beyond what makes it full.
  ghost predicate Bounded(s: State) { forall j | 0 <= j < |s.batches| :: s.batches[j].slots * s.k <= s.batches[j].end }

  ghost predicate Inv(s: State) {
    s.k > 0 && s.n >= 16 && BatchesInv(s) && BlocksInv(s) && (s.n % s.k == 0 ==> Bounded(s))
  }

  lemma {:induction false} SlotSumAppend(bs: seq<Batch>, b: Batch)
    ensures SlotSum(bs + [b]) == SlotSum(bs) + b.slots
  {
    if bs == [] {
      assert bs + [b] == [b];
    } else {
      assert (bs + [b])[1..] == bs[1..] + [b];
      SlotSumAppend(bs[1..], b);
    }
  }

  lemma {:induction false} SlotSumBump(bs: seq<Batch>, j: nat)
    requires j < |bs|
    ensures SlotSum(bs[j := bs[j].(slots := bs[j].slots + 1)]) == SlotSum(bs) + 1
  {
    var c := bs[j].(slots := bs[j].slots + 1);
    if j == 0 {
      assert bs[j := c][1..] == bs[1..];
    } else {
      assert bs[j := c][1..] == bs[1..][j - 1 := c];
      SlotSumBump(bs[1..], j - 1);
    }
  }

  lemma {:induction false} StartGood(k: nat, n: nat)
    requires k > 0 && n >= 16
    ensures Inv(Start(k, n))
  {
    assert k * 0 == 0;
  }

  lemma {:induction false} AdvanceKeeps(s: State)
    requires Inv(s)
    ensures Inv(Advance(s)) && !Full(s.k, Advance(s).batches[Advance(s).current]) && Advance(s).current > 0
    ensures Advance(s).free == s.free && Advance(s).live == s.live && Advance(s).k == s.k && Advance(s).n == s.n
    ensures forall b | Carved(s.batches, b) :: Carved(Advance(s).batches, b)
  {
    var a := Advance(s);
    var r := Room(s, s.current);
    assert Full(s.k, s.batches[0]);
    if r < 0 {
      SlotSumAppend(s.batches, NewBatch(s.k, s.n));
      forall b ensures Carved(a.batches, b) == Carved(s.batches, b) {}
      assert 0 * s.k == 0;
      hide SlotSum;
      assert forall j | 0 <= j < |s.batches| :: a.batches[j] == s.batches[j];
    } else {
      assert r == s.current && a == s;
    }
  }

  // A batch that is not full has room for a whole block, when blocks fill a batch evenly.
  lemma {:induction false} RoomForOne(slots: nat, k: nat, n: nat)
    requires k > 0 && n % k == 0 && slots * k <= n && slots * k != n
    ensures (slots + 1) * k <= n
  {
    Multiple(n, k);
    Ordered(slots, n / k, k);
    Ordered(slots + 1, n / k, k);
  }

  lemma {:induction false} Multiple(n: nat, k: nat)
    requires k > 0
    ensures n == n / k * k + n % k && 0 <= n % k < k && n / k >= 0
  {}

  lemma {:induction false} OneMore(a: nat, k: nat)
    ensures (a + 1) * k == a * k + k
  {}

  lemma {:induction false} Above(a: nat, b: nat, k: nat)
    requires a < b
    ensures a * k + k <= b * k
    decreases b
  {
    OneMore(b - 1, k);
    if a < b - 1 { Above(a, b - 1, k); }
  }

  lemma {:induction false} Ordered(a: nat, b: nat, k: nat)
    requires k > 0
    ensures a < b <==> a * k < b * k
    ensures a < b ==> a * k + k <= b * k
    ensures a <= b <==> a * k <= b * k
  {
    if a < b { Above(a, b, k); } else if b < a { Above(b, a, k); }
  }

  // One more block carved from the current batch.
  function Carve(s: State): State
    requires s.current < |s.batches|
  {
    var b := s.batches[s.current];
    s.(batches := s.batches[s.current := b.(slots := b.slots + 1)], live := s.live + {Block(s.current, b.slots)})
  }

  lemma {:induction false} CarveBlocks(s: State)
    requires s.current < |s.batches| && BlocksInv(s)
    ensures var block := Block(s.current, s.batches[s.current].slots);
            block !in s.live && block !in s.free && BlocksInv(Carve(s))
  {
    var block, s' := Block(s.current, s.batches[s.current].slots), Carve(s);
    SlotSumBump(s.batches, s.current);
    hide SlotSum;
    assert !Carved(s.batches, block);
    forall x ensures Carved(s'.batches, x) == (Carved(s.batches, x) || x == block) {}
    hide Carved;
    assert block !in s.live;
  }

  lemma {:induction false} CarveBatches(s: State)
    requires BatchesInv(s) && s.k > 0 && s.current > 0 && !Full(s.k, s.batches[s.current])
    requires s.n % s.k == 0 ==> Bounded(s)
    ensures BatchesInv(Carve(s)) && (s.n % s.k == 0 ==> Bounded(Carve(s)))
  {
    if s.n % s.k == 0 { RoomForOne(s.batches[s.current].slots, s.k, s.n); }
  }

  lemma {:induction false} CarveKeeps(s: State)
    requires Inv(s) && s.current > 0 && !Full(s.k, s.batches[s.current])
    ensures var block := Block(s.current, s.batches[s.current].slots);
            block !in s.live && block !in s.free && Inv(Carve(s))
  {
    CarveBlocks(s);
    CarveBatches(s);
    hide BlocksInv, Bounded;
  }

  lemma {:induction false} ReuseKeeps(s: State)
    requires Inv(s) && s.free != []
    ensures Inv(s.(free := s.free[1..], live := s.live + {s.free[0]}))
  {
    hide SlotSum, Carved, BatchesInv;
    var s' := s.(free := s.free[1..], live := s.live + {s.free[0]});
    assert s.free == [s.free[0]] + s'.free;
    assert s.free[0] in s.free && s.free[0] !in s.live;
    forall b | b in s.free ensures b == s.free[0] || b in s'.free {}
    assert forall i | 0 <= i < |s'.free| :: s'.free[i] == s.free[i + 1];
    assert Bounded(s) == Bounded(s') && BatchesInv(s) == BatchesInv(s') by { SameBatches(s, s'); }
  }

  lemma {:induction false} SameBatches(s: State, t: State)
    requires s.batches == t.batches && s.k == t.k && s.n == t.n && s.current == t.current
    ensures Bounded(s) == Bounded(t) && BatchesInv(s) == BatchesInv(t)
  {}

  lemma {:induction false} ReleaseKeeps(s: State, b: Block)
    requires Inv(s) && b in s.live
    ensures Inv(Release(s, b))
  {
    hide SlotSum, Carved, BatchesInv;
    var s' := Release(s, b);
    SameBatches(s, s');
    assert forall i | 0 < i < |s'.free| :: s'.free[i] == s.free[i - 1];
  }

  /** Every allocation and every release of a live block keeps the invariant. */
  lemma {:induction false} StepKeeps(s: State, step: Step)
    requires Inv(s) && Enabled(s, step)
    ensures Inv(Next(s, step))
  {
    hide Inv, Advance;
    match step
    case Alloc =>
      if s.free != [] {
        ReuseKeeps(s);
      } else {
        AdvanceKeeps(s);
        CarveKeeps(Advance(s));
      }
    case Free(b) => ReleaseKeeps(s, b);
  }

  lemma {:induction false} RunKeeps(s: State, steps: seq<Step>)
    requires Inv(s) && Enables(s, steps)
    ensures Inv(Run(s, steps)) && Run(s, steps).k == s.k && Run(s, steps).n == s.n
    decreases |steps|
  {
    if steps != [] {
      StepKeeps(s, steps[0]);
      assert Next(s, steps[0]).k == s.k && Next(s, steps[0]).n == s.n;
      hide Inv, Next;
      RunKeeps(Next(s, steps[0]), steps[1..]);
    }
  }

  ////////// Whole runs //////////

  // The block lies in the memory of its batch.
  predicate Inside(s: State, b: Block) {
    b.batch < |s.batches| && b.slot * s.k + s.k <= s.batches[b.batch].size
  }

  predicate Disjoint(k: nat, b: Block, c: Block) {
    b.batch != c.batch || b.slot * k + k <= c.slot * k || c.slot * k + k <= b.slot * k
  }

  lemma {:induction false} CarvedInside(s: State, b: Block)
    requires Inv(s) && s.n % s.k == 0 && Carved(s.batches, b)
    ensures Inside(s, b)
  {
    var batch := s.batches[b.batch];
    Ordered(b.slot, batch.slots, s.k);
    assert batch.slots * s.k <= batch.end;
    assert b.batch > 0;
    assert s.n * 1 <= s.n * s.k by { Ordered(1, s.k, s.n); }
  }

  lemma {:induction false} DistinctDisjoint(k: nat, b: Block, c: Block)
    requires k > 0 && b != c
    ensures Disjoint(k, b, c)
  {
    Ordered(b.slot, c.slot, k);
    Ordered(c.slot, b.slot, k);
  }

  ghost predicate AllInside(s: State) { forall b | b in s.live :: Inside(s, b) }

  ghost predicate AllDisjoint(s: State) { forall b, c | b in s.live && c in s.live && b != c :: Disjoint(s.k, b, c) }

  /** In every run a new block is none of the live ones and overlaps none of them. */
  lemma {:induction false} NewBlockDisjoint(k: nat, n: nat, steps: seq<Step>, c: Block)
    requires k > 0 && n >= 16 && Enables(Start(k, n), steps)
    requires c in Run(Start(k, n), steps).live
    ensures var s := Run(Start(k, n), steps);
            s.current < |s.batches| && Allocate(s).0 !in s.live && Disjoint(k, Allocate(s).0, c)
  {
    StartGood(k, n);
    RunKeeps(Start(k, n), steps);
    var s := Run(Start(k, n), steps);
    hide Run, Enables;
    if s.free != [] {
      assert s.free[0] in s.free;
    } else {
      AdvanceKeeps(s);
      CarveKeeps(Advance(s));
    }
    DistinctDisjoint(k, Allocate(s).0, c);
  }

  lemma {:induction false} LiveInside(k: nat, n: nat, steps: seq<Step>)
    requires k > 0 && n >= 16 && n % k == 0 && Enables(Start(k, n), steps)
    ensures AllInside(Run(Start(k, n), steps)) && AllDisjoint(Run(Start(k, n), steps))
  {
    StartGood(k, n);
    RunKeeps(Start(k, n), steps);
    var s := Run(Start(k, n), steps);
    hide Run, Enables;
    forall b | b in s.live ensures Inside(s, b) { CarvedInside(s, b); }
    forall b, c | b in s.live && c in s.live && b != c ensures Disjoint(s.k, b, c) { DistinctDisjoint(k, b, c); }
  }

  function Total(k: nat, bs: seq<Batch>): nat
    requires k > 0
  {
    if bs == [] then 0 else bs[0].end / k + Total(k, bs[1..])
  }

  function Unused(k: nat, bs: seq<Batch>): int
    requires k > 0
  {
    if bs == [] then 0 else bs[0].end / k - bs[0].slots + Unused(k, bs[1..])
  }

  lemma {:induction false} Sums(k: nat, bs: seq<Batch>)
    requires k > 0
    ensures SlotSum(bs) + Unused(k, bs) == Total(k, bs)
  {
    if bs != [] { Sums(k, bs[1..]); }
  }

  /** In every run live, free and unused blocks are all the blocks there are, and every batch after the current
      one is full. */
  lemma {:induction false} BlocksConserved(k: nat, n: nat, steps: seq<Step>)
    requires k > 0 && n >= 16 && Enables(Start(k, n), steps)
    ensures var s := Run(Start(k, n), steps);
            && |s.live| + |s.free| + Unused(k, s.batches) == Total(k, s.batches)
            && s.current < |s.batches| && forall j | 0 <= j < s.current :: Full(k, s.batches[j])
  {
    StartGood(k, n);
    RunKeeps(Start(k, n), steps);
    Sums(k, Run(Start(k, n), steps).batches);
  }

  ////////// When blocks do not fill a batch evenly //////////

  // m allocations and nothing else.
  ghost function Allocs(m: nat): (r: seq<Step>)
    ensures |r| == m && forall i | 0 <= i < m :: r[i] == Alloc
  {
    seq(m, _ => Alloc)
  }

  // The state after them: one batch, which is never called full.
  ghost predicate Runaway(s: State, m: nat) {
    && s.k > 0 && s.n >= 16 && s.n % s.k != 0 && s.free == []
    && s.batches == [NewBatch(s.k, 0), Batch(m, s.n, s.k * s.n)] && s.current == 1
    && (m > 0 ==> Block(1, m - 1) in s.live)
  }

  lemma {:induction false} NeverFull(m: nat, k: nat, n: nat)
    requires k > 0 && n % k != 0
    ensures m * k != n
  {
    Multiple(n, k);
    Ordered(m, n / k, k);
    Ordered(n / k, m, k);
  }

  lemma {:induction false} RunawayStep(s: State, m: nat)
    requires Runaway(s, m)
    ensures Enabled(s, Alloc) && Runaway(Next(s, Alloc), m + 1)
  {
    NeverFull(m, s.k, s.n);
    assert Room(s, 1) == 1;
  }

  lemma {:induction false} RunawayRun(s: State, m: nat, more: nat)
    requires Runaway(s, m)
    ensures Enables(s, Allocs(more)) && Runaway(Run(s, Allocs(more)), m + more)
    ensures Run(s, Allocs(more)).k == s.k && Run(s, Allocs(more)).n == s.n
    decreases more
  {
    hide Runaway;
    if more > 0 {
      RunawayStep(s, m);
      assert Allocs(more)[1..] == Allocs(more - 1);
      assert Next(s, Alloc).k == s.k && Next(s, Alloc).n == s.n;
      RunawayRun(Next(s, Alloc), m + 1, more - 1);
    }
  }

  /** Where blocks do not fill a batch evenly, one allocation more than a batch has objects lies outside it. */
  lemma {:induction false} Overruns(k: nat, n: nat)
    requires k > 0 && n >= 16 && n % k != 0
    ensures Enables(Start(k, n), Allocs(n + 1)) && !AllInside(Run(Start(k, n), Allocs(n + 1)))
  {
    var s := Start(k, n);
    var s1 := Next(s, Alloc);
    assert Full(k, s.batches[0]);
    assert Room(s, 0) == -1;
    assert Runaway(s1, 1);
    RunawayRun(s1, 1, n);
    assert Allocs(n + 1)[1..] == Allocs(n);
    var t := Run(s1, Allocs(n));
    assert Block(1, n) in t.live;
    assert n * k + k > k * n;
    assert !Inside(t, Block(1, n));
  }

  /** Up to there they are inside: a batch has memory for as many blocks as a page has objects. */
  lemma {:induction false} InsideUpTo(k: nat, n: nat, m: nat)
    requires k > 0 && n >= 16 && n % k != 0 && 1 <= m <= n
    ensures Enables(Start(k, n), Allocs(m)) && AllInside(Run(Start(k, n), Allocs(m)))
  {
    var s := Start(k, n);
    var s1 := Next(s, Alloc);
    assert Full(k, s.batches[0]);
    assert Room(s, 0) == -1;
    assert Runaway(s1, 1);
    RunawayRun(s1, 1, m - 1);
    assert Allocs(m)[1..] == Allocs(m - 1);
    StartGood(k, n);
    RunKeeps(s, Allocs(m));
    RunawayInside(Run(s, Allocs(m)), m);
  }

  lemma {:induction false} RunawayInside(s: State, m: nat)
    requires Runaway(s, m) && Inv(s) && m <= s.n
    ensures AllInside(s)
  {
    forall b | b in s.live ensures Inside(s, b) {
      assert Carved(s.batches, b);
      Ordered(b.slot, s.n, s.k);
      assert s.n * s.k == s.k * s.n;
    }
  }

  ghost predicate AlwaysInside(k: nat, n: nat) {
    forall steps: seq<Step> | Enables(Start(k, n), steps) :: AllInside(Run(Start(k, n), steps))
  }

  /** Every block of every run lies in its batch exactly when the objects of a page are a multiple of those of an
      allocation. */
  lemma {:induction false} InsideIff(k: nat, n: nat)
    requires k > 0 && n >= 16
    ensures AlwaysInside(k, n) <==> n % k == 0
  {
    if n % k == 0 {
      forall steps: seq<Step> | Enables(Start(k, n), steps) ensures AllInside(Run(Start(k, n), steps)) {
        LiveInside(k, n, steps);
      }
    } else {
      Overruns(k, n);
    }
  }

  ////////// Reuse //////////

  /** A block that is released is the next to be allocated, and that undoes the release. */
  lemma {:induction false} ReleaseAllocate(s: State, b: Block)
    requires b in s.live && s.current < |s.batches|
    ensures Allocate(Release(s, b)) == (b, s)
  {
    assert ([b] + s.free)[1..] == s.free;
    assert s.live - {b} + {b} == s.live;
  }

  /** A batch is made only when no block is free and every batch is full. */
  lemma {:induction false} GrowsOnlyWhenFull(s: State)
    requires Inv(s)
    ensures |Allocate(s).1.batches| > |s.batches|
            <==> s.free == [] && forall j | 0 <= j < |s.batches| :: Full(s.k, s.batches[j])
    ensures |Allocate(s).1.batches| <= |s.batches| + 1
  {
    hide BlocksInv, Bounded, Full;
  }
}
