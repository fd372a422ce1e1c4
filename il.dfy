/**
  The part of falcon's IL that branch detection looks at, and the scan both `find_branch`
  implementations (fil/bb.rs and il.rs) perform: blocks in the order the control-flow graph
  lists them, instructions in order, stopping at the first branch that has an address and a
  target the classifier understands.

  Each instruction records only what the scan asks of it: its address, its operation and three
  facts about it that the architecture-specific call test uses (on x86, whether it reads the
  stack pointer and whether it is a store; elsewhere, whether it writes the link register that
  PANDA reports).
*/
module Il {
  import opened Numeric
  import opened Wrappers

  /** The guest architectures the plugin can be built for. */
  datatype Arch = I386 | X86_64 | Mips | Mipsel | Ppc
  {
    predicate IsX86() { I386? || X86_64? }
  }

  /** A branch target: a constant (whose value may not fit 64 bits), a scalar, or anything else. */
  datatype Expression =
    | Constant(valueU64: Option<u64>)
    | Scalar(name: string)
    | OtherExpression

  datatype Operation = Branch(target: Expression) | OtherOperation

  datatype Instruction = Instruction(
    address: Option<u64>,
    operation: Operation,
    readsSp: bool,
    isStore: bool,
    writesLinkReg: bool)

  datatype Block = Block(instructions: seq<Instruction>)

  datatype ControlFlowGraph = ControlFlowGraph(blocks: seq<Block>)

  /**
    falcon's `translate_block` followed by `blockify`: `None` when either fails. It is foreign
    code, so the model takes it as a parameter.
  */
  type Translator = (seq<u8>, u64) -> Option<ControlFlowGraph>

  /** A target the classifier acts on. */
  datatype Target = Direct(dstPc: u64) | Indirect(reg: string)

  /** What the scan found: the branch's address, the call flag and the target. */
  datatype Hit = Hit(sitePc: u64, isCall: bool, target: Target)

  /**
    The target of an addressed branch whose target is a constant with a 64-bit value or a
    scalar; every other instruction is skipped by the scan.
  */
  function TargetOf(instr: Instruction): (t: Option<Target>)
    ensures t.Some? <==> Qualifies(instr)
  {
    if instr.address.None? || !instr.operation.Branch? then None
    else match instr.operation.target
      case Constant(Some(dst)) => Some(Direct(dst))
      case Scalar(name) => Some(Indirect(name))
      case _ => None
  }

  predicate Qualifies(instr: Instruction)
  {
    && instr.address.Some?
    && instr.operation.Branch?
    && (match instr.operation.target
        case Constant(v) => v.Some?
        case Scalar(_) => true
        case OtherExpression => false)
  }

  /** `is_call`: only a branch with a predecessor in its block can be a call. */
  function IsCallAt(instrs: seq<Instruction>, idx: nat, marksCall: Instruction -> bool): (r: bool)
    requires idx < |instrs|
    ensures r ==> idx > 0 && marksCall(instrs[idx - 1])
    ensures idx > 0 && marksCall(instrs[idx - 1]) ==> r
  {
    idx > 0 && marksCall(instrs[idx - 1])
  }

  /** Rust's `str::contains`: `needle` occurs somewhere in `hay`. */
  predicate Contains(hay: string, needle: string)
    decreases |hay|
  {
    needle <= hay || (|hay| > 0 && Contains(hay[1..], needle))
  }

  predicate OccursAt(hay: string, needle: string, k: nat)
  {
    k + |needle| <= |hay| && hay[k..k + |needle|] == needle
  }

  /** `Contains` means an occurrence at some offset. */
  lemma {:induction false} ContainsAt(hay: string, needle: string)
    ensures Contains(hay, needle) <==> exists k: nat :: OccursAt(hay, needle, k)
  {
    if needle <= hay {
      assert OccursAt(hay, needle, 0);
    } else if |hay| > 0 {
      ContainsAt(hay[1..], needle);
      if exists k: nat :: OccursAt(hay, needle, k) {
        var k: nat :| OccursAt(hay, needle, k);
        if k > 0 {
          assert hay[1..][k - 1..k - 1 + |needle|] == hay[k..k + |needle|];
          assert OccursAt(hay[1..], needle, k - 1);
        }
      }
      if exists k: nat :: OccursAt(hay[1..], needle, k) {
        var k: nat :| OccursAt(hay[1..], needle, k);
        assert hay[k + 1..k + 1 + |needle|] == hay[1..][k..k + |needle|];
        assert OccursAt(hay, needle, k + 1);
      }
    }
  }

  /**
    The scan's test for a return: falcon lifts a return as a branch through a temporary, and
    the source recognises it by the word "temp" in the scalar's name.
  */
  predicate IsReturnScalar(name: string)
  {
    Contains(name, "temp")
  }

  // ---------------------------------------------------------------- the search, as a function

  /** No qualifying instruction at positions `from` up to `to`. */
  predicate NoneQualify(instrs: seq<Instruction>, from: nat, to: nat)
    requires to <= |instrs|
  {
    forall k :: from <= k < to ==> !Qualifies(instrs[k])
  }

  /** The first qualifying position at or after `from`. */
  function FirstInBlock(instrs: seq<Instruction>, from: nat): (r: Option<nat>)
    requires from <= |instrs|
    ensures r.Some? ==> from <= r.value < |instrs| && Qualifies(instrs[r.value]) && NoneQualify(instrs, from, r.value)
    ensures r.None? ==> NoneQualify(instrs, from, |instrs|)
    decreases |instrs| - from
  {
    if from == |instrs| then None
    else if Qualifies(instrs[from]) then Some(from)
    else FirstInBlock(instrs, from + 1)
  }

  predicate BlockQualifies(b: Block)
  {
    exists k :: 0 <= k < |b.instructions| && Qualifies(b.instructions[k])
  }

  /**
    `(b, i)` is the first qualifying instruction in block-major order: every instruction of
    an earlier block, and every earlier instruction of block `b`, is skipped.
  */
  predicate IsFirstQualifying(blocks: seq<Block>, b: nat, i: nat)
  {
    && b < |blocks|
    && i < |blocks[b].instructions|
    && Qualifies(blocks[b].instructions[i])
    && NoneQualify(blocks[b].instructions, 0, i)
    && forall c :: 0 <= c < b ==> !BlockQualifies(blocks[c])
  }

  /** The first qualifying position in blocks `from` onwards, by recursion over the blocks. */
  function FirstPositionFrom(blocks: seq<Block>, from: nat): (r: Option<(nat, nat)>)
    requires from <= |blocks|
    ensures r.Some? ==>
      && from <= r.value.0 < |blocks|
      && r.value.1 < |blocks[r.value.0].instructions|
      && Qualifies(blocks[r.value.0].instructions[r.value.1])
      && NoneQualify(blocks[r.value.0].instructions, 0, r.value.1)
      && (forall c :: from <= c < r.value.0 ==> !BlockQualifies(blocks[c]))
    ensures r.None? ==> forall c :: from <= c < |blocks| ==> !BlockQualifies(blocks[c])
    decreases |blocks| - from
  {
    if from == |blocks| then None
    else match FirstInBlock(blocks[from].instructions, 0)
      case Some(i) => Some((from, i))
      case None => FirstPositionFrom(blocks, from + 1)
  }

  function FirstPosition(cfg: ControlFlowGraph): Option<(nat, nat)>
  {
    FirstPositionFrom(cfg.blocks, 0)
  }

  /** The scan's meaning: it stops exactly at the first qualifying instruction, if any. */
  lemma FirstPositionIsFirst(cfg: ControlFlowGraph, b: nat, i: nat)
    ensures FirstPosition(cfg) == Some((b, i)) <==> IsFirstQualifying(cfg.blocks, b, i)
  {
    if IsFirstQualifying(cfg.blocks, b, i) {
      assert BlockQualifies(cfg.blocks[b]);
    }
  }

  /** No branch is found exactly when no instruction of any block qualifies. */
  lemma FirstPositionNone(cfg: ControlFlowGraph)
    ensures FirstPosition(cfg).None? <==>
      forall b, i :: 0 <= b < |cfg.blocks| && 0 <= i < |cfg.blocks[b].instructions| ==>
        !Qualifies(cfg.blocks[b].instructions[i])
  {
    match FirstPosition(cfg)
    case None =>
      forall b, i | 0 <= b < |cfg.blocks| && 0 <= i < |cfg.blocks[b].instructions|
        ensures !Qualifies(cfg.blocks[b].instructions[i])
      {
        assert !BlockQualifies(cfg.blocks[b]);
      }
    case Some(_) =>
  }

  /** The hit at a position: its address, call flag and target. */
  function HitAt(blocks: seq<Block>, b: nat, i: nat, marksCall: Instruction -> bool): (h: Hit)
    requires b < |blocks| && i < |blocks[b].instructions| && Qualifies(blocks[b].instructions[i])
    ensures Some(h.sitePc) == blocks[b].instructions[i].address
    ensures Some(h.target) == TargetOf(blocks[b].instructions[i])
    ensures h.isCall == IsCallAt(blocks[b].instructions, i, marksCall)
  {
    var instr := blocks[b].instructions[i];
    Hit(instr.address.value, IsCallAt(blocks[b].instructions, i, marksCall), TargetOf(instr).value)
  }

  /** What `find_branch` acts on: the hit at the first qualifying position. */
  function FirstHit(cfg: ControlFlowGraph, marksCall: Instruction -> bool): Option<Hit>
  {
    match FirstPosition(cfg)
    case Some((b, i)) => Some(HitAt(cfg.blocks, b, i, marksCall))
    case None => None
  }

  /** Two call tests that agree on every instruction of the graph give the same hit. */
  lemma FirstHitCongruent(cfg: ControlFlowGraph, f: Instruction -> bool, g: Instruction -> bool)
    requires forall b, i :: 0 <= b < |cfg.blocks| && 0 <= i < |cfg.blocks[b].instructions| ==>
      f(cfg.blocks[b].instructions[i]) == g(cfg.blocks[b].instructions[i])
    ensures FirstHit(cfg, f) == FirstHit(cfg, g)
  {
    match FirstPosition(cfg)
    case None =>
    case Some((b, i)) =>
      if i > 0 {
        assert f(cfg.blocks[b].instructions[i - 1]) == g(cfg.blocks[b].instructions[i - 1]);
      }
  }

  // ---------------------------------------------------------------- the search, as the loops

  /**
    The nested `for` loops of `find_branch` with their early return: the blocks in order, the
    instructions of each block in order, the call flag from the instruction before.
  */
  method FindFirstHit(cfg: ControlFlowGraph, marksCall: Instruction -> bool) returns (h: Option<Hit>)
    ensures h == FirstHit(cfg, marksCall)
  {
    var blocks := cfg.blocks;
    var b := 0;
    while b < |blocks|
      invariant b <= |blocks|
      invariant FirstPosition(cfg) == FirstPositionFrom(blocks, b)
    {
      var instrs := blocks[b].instructions;
      var idx := 0;
      while idx < |instrs|
        invariant idx <= |instrs|
        invariant FirstInBlock(instrs, 0) == FirstInBlock(instrs, idx)
      {
        var instr := instrs[idx];
        if instr.address.Some? && instr.operation.Branch? {
          var isCall := false;
          if idx > 0 {
            isCall := marksCall(instrs[idx - 1]);
          }
          match instr.operation.target {
            case Constant(Some(dst)) =>
              return Some(Hit(instr.address.value, isCall, Direct(dst)));
            case Scalar(name) =>
              return Some(Hit(instr.address.value, isCall, Indirect(name)));
            case _ =>
          }
        }
        idx := idx + 1;
      }
      b := b + 1;
    }
    return None;
  }
}
