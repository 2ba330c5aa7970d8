/** The class BatchAllocator of json/json_batchallocator.h. */
module BatchAllocatorImpl {
  import opened Wrappers
  import opened BatchSpec

  // The free list as it lies in memory: the first word of a free block points to the next one.
  ghost predicate Threaded(head: Option<Block>, memory: map<Block, Option<Block>>, free: seq<Block>)
    decreases |free|
  {
    if free == [] then head.None?
    else head == Some(free[0]) && free[0] in memory && Threaded(memory[free[0]], memory, free[1..])
  }

  lemma {:induction false} ThreadedElsewhere(head: Option<Block>, memory: map<Block, Option<Block>>,
                                             free: seq<Block>, b: Block, word: Option<Block>)
    requires Threaded(head, memory, free) && b !in free
    ensures Threaded(head, memory[b := word], free)
    decreases |free|
  {
    if free != [] { ThreadedElsewhere(memory[free[0]], memory, free[1..], b, word); }
  }

  class BatchAllocator {
    const objectPerAllocation: nat
    const objectsPerPage: nat
    var batches: seq<Batch>
    var currentBatch: nat
    var freeHead: Option<Block>
    // The first word of every block that has been written.
    var memory: map<Block, Option<Block>>
    ghost var free: seq<Block>
    ghost var live: set<Block>

    ghost function Abstract(): State
      reads this
    {
      State(objectPerAllocation, objectsPerPage, batches, currentBatch, free, live)
    }

    ghost predicate Valid()
      reads this
    {
      Inv(Abstract()) && Threaded(freeHead, memory, free)
    }

    constructor (k: nat, n: nat)
      requires k > 0 && n >= 16
      ensures Valid() && Abstract() == Start(k, n)
    {
      StartGood(k, n);
      objectPerAllocation, objectsPerPage := k, n;
      freeHead, memory, free, live := None, map[], [], {};
      batches := [NewBatch(k, 0)];
      currentBatch := 0;
    }

    /** allocate, down the list of batches: one that is not full is made current. */
    method FindRoom()
      requires currentBatch < |batches|
      modifies this`batches, this`currentBatch
      ensures Abstract() == Advance(old(Abstract()))
    {
      hide Full;
      ghost var s := Abstract();
      if Full(objectPerAllocation, batches[currentBatch]) {
        var j: int := currentBatch - 1;
        while j >= 0 && Full(objectPerAllocation, batches[j])
          invariant -1 <= j < |batches| && Room(s, j) == Room(s, s.current)
          decreases j
        {
          j := j - 1;
        }
        if j < 0 {
          j := |batches|;
          batches := batches + [NewBatch(objectPerAllocation, objectsPerPage)];
        }
        currentBatch := j;
      }
    }

    /** allocate */
    method Allocate() returns (b: Block)
      requires Valid()
      modifies this
      ensures Valid() && (b, Abstract()) == BatchSpec.Allocate(old(Abstract()))
    {
      hide Inv, Advance;
      ghost var s := Abstract();
      AdvanceStays(s);
      StepKeeps(s, Alloc);
      if freeHead.Some? {
        b := freeHead.value;
        freeHead := memory[b];
        free := free[1..];
        live := live + {b};
      } else {
        FindRoom();
        b := Block(currentBatch, batches[currentBatch].slots);
        batches := batches[currentBatch := batches[currentBatch].(slots := b.slot + 1)];
        live := live + {b};
      }
      assert Abstract() == Next(s, Alloc);
    }

    /** release: the block's first word becomes the link. */
    method Release(b: Block)
      requires Valid() && b in live
      modifies this
      ensures Valid() && Abstract() == BatchSpec.Release(old(Abstract()), b)
    {
      ReleaseKeeps(Abstract(), b);
      assert b !in free;
      hide Inv;
      ThreadedElsewhere(freeHead, memory, free, b, freeHead);
      memory := memory[b := freeHead];
      freeHead := Some(b);
      free := [b] + free;
      live := live - {b};
      assert free[1..] == old(free);
    }

    /** The owner of a live block writes into it. */
    method Write(b: Block, word: Option<Block>)
      requires Valid() && b in live
      modifies this
      ensures Valid() && Abstract() == old(Abstract())
    {
      ThreadedElsewhere(freeHead, memory, free, b, word);
      memory := memory[b := word];
    }
  }

  lemma {:induction false} AdvanceStays(s: State)
    requires Inv(s)
    ensures s.current < |s.batches| && Advance(s).current < |Advance(s).batches|
  {}
}
