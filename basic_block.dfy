/**
  A guest basic block of the trace (fil/bb.rs): its sequence number, start address and code
  bytes, the cached lift result and the first branch found in it. Sequence number, address
  and bytes never change after construction; `Lift` and `Process` update the other two fields.
*/
module FilBlock {
  import opened Numeric
  import opened Wrappers
  import opened Json
  import opened Branches
  import opened Il

  /**
    fil's call test on the instruction before a branch: on x86 it must read the stack pointer
    and be a store (the pushed return address); on the other architectures it must write the
    link register.
  */
  function MarksCall(arch: Arch): Instruction -> bool
  {
    (prev: Instruction) => if arch.IsX86() then prev.readsSp && prev.isStore else prev.writesLinkReg
  }

  /**
    The classification at the end of `find_branch`. A return (a scalar named like a
    temporary) is a call sentinel carrying the return marker whatever the call flag says; the
    block's sequence number goes into every sentinel. `DirectJump` is built without a taken
    flag, so the model sets it to false.
  */
  function Classify(h: Hit, seqNum: u64): (b: Branch)
    ensures b.sitePc == h.sitePc
    ensures b.IsSentinel() ==> b.seqNum == seqNum
    ensures b.DirectCall? || b.DirectJump? || b.CallSentinel? || b.JumpSentinel?
    ensures b.DirectCall? || b.DirectJump? <==> h.target.Direct?
    ensures b.DirectCall? ==> h.isCall
  {
    match h.target
    case Direct(dst) =>
      if h.isCall then DirectCall(h.sitePc, dst) else DirectJump(h.sitePc, dst, false)
    case Indirect(reg) =>
      if IsReturnScalar(reg) then CallSentinel(h.sitePc, seqNum, RET_MARKER)
      else if h.isCall then CallSentinel(h.sitePc, seqNum, reg)
      else JumpSentinel(h.sitePc, seqNum, reg)
  }

  /** What `find_branch` returns for a block in the given lift state. */
  function BranchOf(translation: Option<ControlFlowGraph>, seqNum: u64, arch: Arch): Option<Branch>
  {
    match translation
    case None => None
    case Some(cfg) =>
      match FirstHit(cfg, MarksCall(arch))
      case None => None
      case Some(h) => Some(Classify(h, seqNum))
  }

  /** The translation after `lift`: a cached result is kept, otherwise the new attempt is taken. */
  function Lifted(cached: Option<ControlFlowGraph>, attempt: Option<ControlFlowGraph>): Option<ControlFlowGraph>
  {
    if cached.Some? then cached else attempt
  }

  /** Lifting never clears a translation and never replaces one, however often it is repeated. */
  lemma LiftCaches(cached: Option<ControlFlowGraph>, attempt: Option<ControlFlowGraph>, later: Option<ControlFlowGraph>)
    ensures cached.Some? ==> Lifted(cached, attempt) == cached
    ensures Lifted(cached, attempt).Some? ==> Lifted(Lifted(cached, attempt), later) == Lifted(cached, attempt)
    ensures cached.None? ==> Lifted(cached, attempt) == attempt
  {
  }

  /** No branch for an unlifted block, and none for a lifted one exactly when nothing qualifies. */
  lemma BranchOfNone(translation: Option<ControlFlowGraph>, seqNum: u64, arch: Arch)
    ensures translation.None? ==> BranchOf(translation, seqNum, arch).None?
    ensures translation.Some? ==>
      (BranchOf(translation, seqNum, arch).None? <==>
        forall b, i :: 0 <= b < |translation.value.blocks| && 0 <= i < |translation.value.blocks[b].instructions| ==>
          !Qualifies(translation.value.blocks[b].instructions[i]))
  {
    if translation.Some? {
      FirstPositionNone(translation.value);
    }
  }

  /**
    The branch found is built from the first qualifying instruction, `(b, i)`: its address is
    the site; a constant target gives a direct call or jump by the call flag; a scalar named
    like a temporary gives a return sentinel; any other scalar gives a call or jump sentinel by
    the call flag, naming the scalar. The call flag needs an instruction before the branch in
    its block that passes the architecture's test.
  */
  lemma BranchOfFirst(cfg: ControlFlowGraph, seqNum: u64, arch: Arch, b: nat, i: nat)
    requires IsFirstQualifying(cfg.blocks, b, i)
    ensures var instrs := cfg.blocks[b].instructions;
      var site := instrs[i].address.value;
      var target := instrs[i].operation.target;
      var isCall := i > 0 && (if arch.IsX86() then instrs[i - 1].readsSp && instrs[i - 1].isStore
                              else instrs[i - 1].writesLinkReg);
      var r := BranchOf(Some(cfg), seqNum, arch);
      && r.Some?
      && r.value.sitePc == site
      && (target.Constant? ==>
            r.value == (if isCall then DirectCall(site, target.valueU64.value)
                        else DirectJump(site, target.valueU64.value, false)))
      && (target.Scalar? && IsReturnScalar(target.name) ==> r.value == CallSentinel(site, seqNum, RET_MARKER))
      && (target.Scalar? && !IsReturnScalar(target.name) ==>
            r.value == (if isCall then CallSentinel(site, seqNum, target.name)
                        else JumpSentinel(site, seqNum, target.name)))
  {
    FirstPositionIsFirst(cfg, b, i);
  }

  /** The block as a value: what serialisation and the list's specification look at. */
  datatype BlockValue = BlockValue(
    seqNum: u64,
    pc: u64,
    bytes: seq<u8>,
    translation: Option<ControlFlowGraph>,
    branch: Option<Branch>)
  {
    predicate IsLifted() { translation.Some? }
  }

  class BasicBlock {
    const seqNum: u64
    const pc: u64
    const bytes: seq<u8>
    var translation: Option<ControlFlowGraph>
    var branch: Option<Branch>

    /** `new` and `new_zero_copy`: nothing is lifted and no branch is known yet. */
    constructor (seqNum: u64, pc: u64, bytes: seq<u8>)
      ensures this.seqNum == seqNum && this.pc == pc && this.bytes == bytes
      ensures translation == None && branch == None
    {
      this.seqNum := seqNum;
      this.pc := pc;
      this.bytes := bytes;
      translation := None;
      branch := None;
    }

    /** `clone`: a new block with the same fields. */
    constructor Clone(other: BasicBlock)
      ensures View() == other.View()
    {
      seqNum := other.seqNum;
      pc := other.pc;
      bytes := other.bytes;
      translation := other.translation;
      branch := other.branch;
    }

    function View(): BlockValue
      reads this
    {
      BlockValue(seqNum, pc, bytes, translation, branch)
    }

    predicate IsLifted()
      reads this
    {
      translation.Some?
    }

    /** `lift`: translates only while no translation is cached, and keeps a failure as `None`. */
    method Lift(translate: Translator) returns (t: Option<ControlFlowGraph>)
      modifies this
      ensures translation == Lifted(old(translation), translate(bytes, pc))
      ensures branch == old(branch)
      ensures t == translation
    {
      if translation.None? {
        var result := translate(bytes, pc);
        if result.Some? {
          translation := result;
        }
      }
      t := translation;
    }

    /** `find_branch`: the scan over the cached translation, then the classification. */
    method FindBranch(arch: Arch) returns (r: Option<Branch>)
      ensures r == BranchOf(translation, seqNum, arch)
    {
      match translation {
        case None =>
          return None;
        case Some(cfg) =>
          var h := FindFirstHit(cfg, MarksCall(arch));
          match h {
            case None =>
              return None;
            case Some(hit) =>
              return Some(Classify(hit, seqNum));
          }
      }
    }

    /** `process`: lift, then record the first branch of the (possibly new) translation. */
    method Process(translate: Translator, arch: Arch)
      modifies this
      ensures translation == Lifted(old(translation), translate(bytes, pc))
      ensures branch == BranchOf(translation, seqNum, arch)
    {
      var _ := Lift(translate);
      branch := FindBranch(arch);
    }
  }

  // ---------------------------------------------------------------- serde

  /** `#[derive(Serialize)]` skips the bytes and the translation; `None` becomes `null`. */
  function BlockJson(v: BlockValue): (j: Json)
  {
    JObject([
      Member("seq_num", JNumber(v.seqNum)),
      Member("pc", JNumber(v.pc)),
      Member("branch", match v.branch case None => JNull case Some(b) => ToJson(b))])
  }

  /** The serialised fields read back from a block's JSON value. */
  function BlockFieldsFromJson(j: Json): Option<(u64, u64, Option<Branch>)>
  {
    if !j.JObject? || |j.members| != 3 then None
    else
      var ms := j.members;
      match (U64Member(ms[0], "seq_num"), U64Member(ms[1], "pc"))
      case (Some(sn), Some(pc)) =>
        if ms[2].key != "branch" then None
        else if ms[2].value == JNull then Some((sn, pc, None))
        else (match FromJson(ms[2].value)
          case Some(b) => Some((sn, pc, Some(b)))
          case None => None)
      case _ => None
  }

  /** Reading back a block's JSON text recovers its sequence number, address and branch. */
  lemma BlockJsonRoundTrip(v: BlockValue)
    ensures match Read(Write(BlockJson(v)))
      case Some(j) => BlockFieldsFromJson(j) == Some((v.seqNum, v.pc, v.branch))
      case None => false
  {
    ReadWriteDocument(BlockJson(v));
    if v.branch.Some? {
      FromToJson(v.branch.value);
    }
  }

  /** The serialised text depends on exactly the sequence number, the address and the branch. */
  lemma BlockJsonFields(v: BlockValue, w: BlockValue)
    ensures Write(BlockJson(v)) == Write(BlockJson(w)) <==>
      (v.seqNum, v.pc, v.branch) == (w.seqNum, w.pc, w.branch)
  {
    BlockJsonRoundTrip(v);
    BlockJsonRoundTrip(w);
  }
}
