/**
  The older block type of il.rs. It has the lift cache and the branch scan of fil/bb.rs, but a
  branch type with positional fields, no taken flag and no return sentinel. Its call test
  applies the link-register rule on every architecture: on x86 the instruction before a
  branch marks a call when it pushes through the stack pointer OR writes the link register.
*/
module LegacyIl {
  import opened Numeric
  import opened Wrappers
  import Il
  import Branches
  import FilBlock

  datatype Branch =
    | DirectCall(sitePc: u64, dstPc: u64)
    | DirectJump(sitePc: u64, dstPc: u64)
    | IndirectCall(sitePc: u64, dstPc: u64, reg: string)
    | IndirectJump(sitePc: u64, dstPc: u64, reg: string)
    | CallSentinel(sitePc: u64, seqNum: u64, reg: string)
    | JumpSentinel(sitePc: u64, seqNum: u64, reg: string)
    | Return(sitePc: u64, dstPc: u64)

  /** il.rs's call test: the x86 rule where it applies, and the link-register rule everywhere. */
  function MarksCall(arch: Il.Arch): Il.Instruction -> bool
  {
    (prev: Il.Instruction) => (arch.IsX86() && prev.readsSp && prev.isStore) || prev.writesLinkReg
  }

  /** The classification at the end of il.rs's `find_branch`. */
  function Classify(h: Il.Hit, seqNum: u64): (b: Branch)
    ensures b.sitePc == h.sitePc
    ensures b.DirectCall? || b.DirectJump? || b.CallSentinel? || b.JumpSentinel?
    ensures b.DirectCall? || b.DirectJump? <==> h.target.Direct?
    ensures b.DirectCall? ==> h.isCall
    ensures b.JumpSentinel? ==> !h.isCall
    ensures b.CallSentinel? || b.JumpSentinel? ==> b.seqNum == seqNum
  {
    match h.target
    case Direct(dst) =>
      if h.isCall then DirectCall(h.sitePc, dst) else DirectJump(h.sitePc, dst)
    case Indirect(reg) =>
      if Il.IsReturnScalar(reg) then CallSentinel(h.sitePc, seqNum, Branches.RET_MARKER)
      else if h.isCall then CallSentinel(h.sitePc, seqNum, reg)
      else JumpSentinel(h.sitePc, seqNum, reg)
  }

  /** What il.rs's `find_branch` returns for a block in the given lift state. */
  function BranchOf(translation: Option<Il.ControlFlowGraph>, seqNum: u64, arch: Il.Arch): Option<Branch>
  {
    match translation
    case None => None
    case Some(cfg) =>
      match Il.FirstHit(cfg, MarksCall(arch))
      case None => None
      case Some(h) => Some(Classify(h, seqNum))
  }

  class BasicBlock {
    const seqNum: u64
    const pc: u64
    const bytes: seq<u8>
    var translation: Option<Il.ControlFlowGraph>

    /** `new` and `new_zero_copy`: nothing is lifted yet. */
    constructor (seqNum: u64, pc: u64, bytes: seq<u8>)
      ensures this.seqNum == seqNum && this.pc == pc && this.bytes == bytes
      ensures translation == None
    {
      this.seqNum := seqNum;
      this.pc := pc;
      this.bytes := bytes;
      translation := None;
    }

    /** `lift`: translates only while no translation is cached; a failure leaves `None`. */
    method Lift(translate: Il.Translator) returns (t: Option<Il.ControlFlowGraph>)
      modifies this
      ensures translation == FilBlock.Lifted(old(translation), translate(bytes, pc))
      ensures t == translation
    {
      if translation.None? {
        var result := translate(bytes, pc);
        if result.Some? {
          translation := result;
        }
      }
      t := translation;
    }

    /** `find_branch`: the scan over the cached translation, then the classification. */
    method FindBranch(arch: Il.Arch) returns (r: Option<Branch>)
      ensures r == BranchOf(translation, seqNum, arch)
    {
      match translation {
        case None =>
          return None;
        case Some(cfg) =>
          var h := Il.FindFirstHit(cfg, MarksCall(arch));
          match h {
            case None =>
              return None;
            case Some(hit) =>
              return Some(Classify(hit, seqNum));
          }
      }
    }
  }

  /** No branch for an unlifted block; none for a lifted one exactly when nothing qualifies. */
  lemma BranchOfNone(translation: Option<Il.ControlFlowGraph>, seqNum: u64, arch: Il.Arch)
    ensures translation.None? ==> BranchOf(translation, seqNum, arch).None?
    ensures translation.Some? ==>
      (BranchOf(translation, seqNum, arch).None? <==>
        forall b, i :: 0 <= b < |translation.value.blocks| && 0 <= i < |translation.value.blocks[b].instructions| ==>
          !Il.Qualifies(translation.value.blocks[b].instructions[i]))
  {
    if translation.Some? {
      Il.FirstPositionNone(translation.value);
    }
  }

  /**
    The branch found is built from the first qualifying instruction `(b, i)`, as in fil, but
    with il.rs's call flag: a predecessor in the block that pushes through the stack pointer
    on x86, or that writes the link register on any architecture.
  */
  lemma BranchOfFirst(cfg: Il.ControlFlowGraph, seqNum: u64, arch: Il.Arch, b: nat, i: nat)
    requires Il.IsFirstQualifying(cfg.blocks, b, i)
    ensures var instrs := cfg.blocks[b].instructions;
      var site := instrs[i].address.value;
      var target := instrs[i].operation.target;
      var isCall := i > 0 && ((arch.IsX86() && instrs[i - 1].readsSp && instrs[i - 1].isStore)
                              || instrs[i - 1].writesLinkReg);
      var r := BranchOf(Some(cfg), seqNum, arch);
      && (target.Constant? ==>
            r == Some(if isCall then DirectCall(site, target.valueU64.value) else DirectJump(site, target.valueU64.value)))
      && (target.Scalar? && Il.IsReturnScalar(target.name) ==> r == Some(CallSentinel(site, seqNum, Branches.RET_MARKER)))
      && (target.Scalar? && !Il.IsReturnScalar(target.name) ==>
            r == Some(if isCall then CallSentinel(site, seqNum, target.name) else JumpSentinel(site, seqNum, target.name)))
  {
    Il.FirstPositionIsFirst(cfg, b, i);
  }

  // ---------------------------------------------------------------- relation to fil

  /** fil's branch in il.rs's form: the taken flag is dropped, a return sentinel carries the marker. */
  function FromFil(b: Branches.Branch): (r: Branch)
    ensures r.sitePc == b.sitePc
    ensures (r.DirectCall? <==> b.DirectCall?) && (r.DirectJump? <==> b.DirectJump?)
    ensures (r.IndirectCall? <==> b.IndirectCall?) && (r.IndirectJump? <==> b.IndirectJump?)
    ensures (r.Return? <==> b.Return?) && (r.JumpSentinel? <==> b.JumpSentinel?)
    ensures r.CallSentinel? <==> b.CallSentinel? || b.ReturnSentinel?
    ensures b.HasDestination() ==> r.dstPc == b.dstPc
    ensures b.IndirectCall? || b.IndirectJump? ==> r.reg == b.regUsed
    ensures b.CallSentinel? || b.JumpSentinel? ==> r.seqNum == b.seqNum && r.reg == b.regOrRet
    ensures b.ReturnSentinel? ==> r.seqNum == b.seqNum && r.reg == Branches.RET_MARKER
  {
    match b
    case DirectCall(site, dst) => DirectCall(site, dst)
    case DirectJump(site, dst, _) => DirectJump(site, dst)
    case IndirectCall(site, dst, reg) => IndirectCall(site, dst, reg)
    case IndirectJump(site, dst, reg) => IndirectJump(site, dst, reg)
    case CallSentinel(site, sn, reg) => CallSentinel(site, sn, reg)
    case JumpSentinel(site, sn, reg) => JumpSentinel(site, sn, reg)
    case ReturnSentinel(site, sn) => CallSentinel(site, sn, Branches.RET_MARKER)
    case Return(site, dst) => Return(site, dst)
  }

  /** No instruction of the graph writes the link register. */
  predicate NoLinkRegWrites(cfg: Il.ControlFlowGraph)
  {
    forall b, i :: 0 <= b < |cfg.blocks| && 0 <= i < |cfg.blocks[b].instructions| ==>
      !cfg.blocks[b].instructions[i].writesLinkReg
  }

  /**
    The two `find_branch` implementations agree, up to the branch type, off x86 and on x86
    code that never writes the link register: only there does il.rs's ungated rule differ.
  */
  lemma AgreesWithFil(translation: Option<Il.ControlFlowGraph>, seqNum: u64, arch: Il.Arch)
    requires translation.Some? && arch.IsX86() ==> NoLinkRegWrites(translation.value)
    ensures BranchOf(translation, seqNum, arch) ==
      match FilBlock.BranchOf(translation, seqNum, arch)
      case None => None
      case Some(b) => Some(FromFil(b))
  {
    if translation.Some? {
      var cfg := translation.value;
      Il.FirstHitCongruent(cfg, MarksCall(arch), FilBlock.MarksCall(arch));
    }
  }

  /** On x86 a jump after an instruction that writes the link register is a call only for il.rs. */
  lemma LinkRegRuleUngated()
    ensures var prev := Il.Instruction(Some(0), Il.OtherOperation, false, false, true);
      var jump := Il.Instruction(Some(4), Il.Branch(Il.Constant(Some(0x100))), false, false, false);
      var cfg := Il.ControlFlowGraph([Il.Block([prev, jump])]);
      && BranchOf(Some(cfg), 0, Il.X86_64) == Some(DirectCall(4, 0x100))
      && FilBlock.BranchOf(Some(cfg), 0, Il.X86_64) == Some(Branches.DirectJump(4, 0x100, false))
  {
    var prev := Il.Instruction(Some(0), Il.OtherOperation, false, false, true);
    var jump := Il.Instruction(Some(4), Il.Branch(Il.Constant(Some(0x100))), false, false, false);
    var cfg := Il.ControlFlowGraph([Il.Block([prev, jump])]);
    assert Il.IsFirstQualifying(cfg.blocks, 0, 1);
    Il.FirstPositionIsFirst(cfg, 0, 1);
  }

  /**
    il.rs's test of `call 0x1337` at offset 6: falcon lifts it to a store of the return
    address through the stack pointer followed by a branch to the constant, both at address
    6, after the two instructions before it; the result is a direct call from 6 to 0x1337.
  */
  lemma DirectCallAtSix()
    ensures var mov := Il.Instruction(Some(0), Il.OtherOperation, false, false, false);
      var inc := Il.Instruction(Some(3), Il.OtherOperation, false, false, false);
      var push := Il.Instruction(Some(6), Il.OtherOperation, true, true, false);
      var call := Il.Instruction(Some(6), Il.Branch(Il.Constant(Some(0x1337))), false, false, false);
      var cfg := Il.ControlFlowGraph([Il.Block([mov, inc, push, call])]);
      BranchOf(Some(cfg), 0, Il.X86_64) == Some(DirectCall(6, 0x1337))
  {
    var mov := Il.Instruction(Some(0), Il.OtherOperation, false, false, false);
    var inc := Il.Instruction(Some(3), Il.OtherOperation, false, false, false);
    var push := Il.Instruction(Some(6), Il.OtherOperation, true, true, false);
    var call := Il.Instruction(Some(6), Il.Branch(Il.Constant(Some(0x1337))), false, false, false);
    var cfg := Il.ControlFlowGraph([Il.Block([mov, inc, push, call])]);
    assert Il.IsFirstQualifying(cfg.blocks, 0, 3);
    Il.FirstPositionIsFirst(cfg, 0, 3);
  }
}
