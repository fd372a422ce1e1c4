/**
  The recording side of panda-il-trace (lib.rs): before each basic block executes, the plugin
  checks that the guest is in user mode, that the current process is the traced one and that
  the block's bytes can be read, and only then takes the next sequence number from the global
  counter `BB_NUM` and pushes the block onto the queue `BBQ`.

  The emulator's answers are parameters: whether the CPU is in kernel mode, the current process
  name as `CStr::to_str` returns it (`None` for a name that is not UTF-8) and the result of the
  guest-memory read. The queue is a sequence in push order; the workers that pop it are not
  part of this model.
*/
module Sequencer {
  import opened Numeric
  import opened Wrappers

  /** lib.rs's `BasicBlock`: what `BasicBlock::new` stores, unchanged. */
  datatype QueuedBlock = QueuedBlock(seqNum: u64, pc: u64, bytes: seq<u8>)

  /** `fetch_add(1)` on an `AtomicU64`: the addition wraps around at 2^64. */
  function WrappingIncrement(n: u64): (r: u64)
    ensures n < U64_LIMIT - 1 ==> r == n + 1
    ensures n == U64_LIMIT - 1 ==> r == 0
  {
    (n + 1) % U64_LIMIT
  }

  /** The three gates of `every_basic_block`, in the order the source checks them. */
  predicate Admits(inKernel: bool, currName: Option<string>, procName: string, read: Option<seq<u8>>)
  {
    !inKernel && currName == Some(procName) && read.Some?
  }

  /** The queue's sequence numbers are 0, 1, 2, ... in push order, wrapping at 2^64. */
  ghost predicate Numbered(q: seq<QueuedBlock>)
  {
    forall i :: 0 <= i < |q| ==> q[i].seqNum == i % U64_LIMIT
  }

  class Tracer {
    /** `ARGS.proc_name`. */
    const procName: string
    /** `BB_NUM`. */
    var bbNum: u64
    /** `BBQ`, in push order. */
    var queue: seq<QueuedBlock>

    /** The counter has handed out one number per queued block, and the numbers are in order. */
    ghost predicate Valid()
      reads this
    {
      bbNum == |queue| % U64_LIMIT && Numbered(queue)
    }

    /** The plugin's start state: `BB_NUM` is 0 and the queue is empty. */
    constructor (procName: string)
      ensures this.procName == procName && bbNum == 0 && queue == []
      ensures Valid()
    {
      this.procName := procName;
      bbNum := 0;
      queue := [];
    }

    /**
      `every_basic_block`: a block that passes the gates is pushed with the counter's value
      from before the increment; any other block leaves both the counter and the queue alone.
    */
    method EveryBasicBlock(inKernel: bool, currName: Option<string>, pc: u64, read: Option<seq<u8>>)
      requires Valid()
      modifies this
      ensures Valid()
      ensures Admits(inKernel, currName, procName, read) ==>
        queue == old(queue) + [QueuedBlock(old(bbNum), pc, read.value)] && bbNum == WrappingIncrement(old(bbNum))
      ensures !Admits(inKernel, currName, procName, read) ==> queue == old(queue) && bbNum == old(bbNum)
    {
      if inKernel {
        return;
      }
      if currName.Some? {
        if procName == currName.value {
          if read.Some? {
            var seqNum := bbNum;
            bbNum := WrappingIncrement(bbNum);
            queue := queue + [QueuedBlock(seqNum, pc, read.value)];
            assert bbNum == |queue| % U64_LIMIT by {
              WrapStep(|old(queue)|);
            }
          }
        }
      }
    }
  }

  /** The counter stays the queue length modulo 2^64 across a push. */
  lemma WrapStep(n: nat)
    ensures WrappingIncrement(n % U64_LIMIT) == (n + 1) % U64_LIMIT
  {
  }

  /**
    Until the counter wraps, no two queued blocks share a sequence number and push order is
    sequence order: the numbers are exactly the positions.
  */
  lemma NumberedDistinct(q: seq<QueuedBlock>)
    requires Numbered(q) && |q| <= U64_LIMIT
    ensures forall i :: 0 <= i < |q| ==> q[i].seqNum == i
    ensures forall i, j :: 0 <= i < j < |q| ==> q[i].seqNum < q[j].seqNum
  {
    forall i | 0 <= i < |q| ensures q[i].seqNum == i {
      assert i % U64_LIMIT == i;
    }
  }

  /** Once 2^64 blocks have been queued, the next one reuses sequence number 0. */
  lemma NumberingWraps(q: seq<QueuedBlock>)
    requires Numbered(q) && |q| > U64_LIMIT
    ensures q[U64_LIMIT].seqNum == q[0].seqNum == 0
  {
  }
}
