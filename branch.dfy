/**
  The branch kinds detected in the lifted IL (fil/branch.rs), their `Display` text and their
  serde form. Sentinels stand for indirect calls, jumps and returns whose destination is only
  known once the next block in execution order is seen; `BasicBlockList::from` replaces them.
*/
module Branches {
  import opened Numeric
  import opened Wrappers
  import opened Json

  /** The register name a return sentinel carries instead of a register. */
  const RET_MARKER: string := "<RETURN>"

  datatype Branch =
    | DirectCall(sitePc: u64, dstPc: u64)
    | DirectJump(sitePc: u64, dstPc: u64, taken: bool)
    | IndirectCall(sitePc: u64, dstPc: u64, regUsed: string)
    | IndirectJump(sitePc: u64, dstPc: u64, regUsed: string)
    | CallSentinel(sitePc: u64, seqNum: u64, regOrRet: string)
    | JumpSentinel(sitePc: u64, seqNum: u64, regOrRet: string)
    | ReturnSentinel(sitePc: u64, seqNum: u64)
    | Return(sitePc: u64, dstPc: u64)
  {
    /** The kinds `BasicBlockList::from` resolves. */
    predicate IsSentinel() { CallSentinel? || JumpSentinel? }

    /** The kinds that open a frame in the call-stack rendering. */
    predicate IsCall() { DirectCall? || IndirectCall? }

    predicate HasDestination() { DirectCall? || DirectJump? || IndirectCall? || IndirectJump? || Return? }
  }

  /** The variant's name, used both by `Display` and as serde's external tag. */
  function VariantName(b: Branch): string
  {
    match b
    case DirectCall(_, _) => "DirectCall"
    case DirectJump(_, _, _) => "DirectJump"
    case IndirectCall(_, _, _) => "IndirectCall"
    case IndirectJump(_, _, _) => "IndirectJump"
    case CallSentinel(_, _, _) => "CallSentinel"
    case JumpSentinel(_, _, _) => "JumpSentinel"
    case ReturnSentinel(_, _) => "ReturnSentinel"
    case Return(_, _) => "Return"
  }

  // ---------------------------------------------------------------- Display

  /**
    `impl Display for Branch`: every variant prints its name, `@0x` and the site address in
    sixteen lower-case hex digits, then the arrow and destination when it has one, then its
    details.
  */
  function Display(b: Branch): string
  {
    VariantName(b) + "@0x" + Hex16(b.sitePc) + Destination(b) + Details(b)
  }

  function Destination(b: Branch): string
  {
    if b.HasDestination() then " -> 0x" + Hex16(b.dstPc) else ""
  }

  /** What `Display` prints after the addresses. */
  function Details(b: Branch): string
  {
    match b
    case DirectJump(_, _, taken) => " [taken: " + BoolString(taken) + "]"
    case IndirectCall(_, _, reg) => " [" + reg + "]"
    case IndirectJump(_, _, reg) => " [" + reg + "]"
    case CallSentinel(_, sn, reg) => " [" + reg + "], seq_num: " + Decimal(sn)
    case JumpSentinel(_, sn, reg) => " [" + reg + "], seq_num: " + Decimal(sn)
    case ReturnSentinel(_, sn) => ", seq_num: " + Decimal(sn)
    case _ => ""
  }

  /** Positions in `head + sixteen digits + tail`. */
  lemma HexFieldAt(head: string, x: u64, tail: string)
    ensures var t := head + Hex16(x) + tail; var p := |head|;
      |t| == p + 16 + |tail| && t[..p] == head && HexValue(t[p..p + 16]) == x && t[p + 16..] == tail
  {
    var t := head + Hex16(x) + tail;
    assert t[|head|..|head| + 16] == Hex16(x);
    Hex16RoundTrip(x);
  }

  /** The site address is printed as exactly sixteen digits right after the name and `@0x`. */
  lemma DisplaySite(b: Branch)
    ensures var p := |VariantName(b)| + 3; var d := Display(b);
      && |d| >= p + 16
      && d[..p] == VariantName(b) + "@0x"
      && HexValue(d[p..p + 16]) == b.sitePc
      && d[p + 16..] == Destination(b) + Details(b)
  {
    var rest := Destination(b) + Details(b);
    assert Display(b) == (VariantName(b) + "@0x") + Hex16(b.sitePc) + rest;
    HexFieldAt(VariantName(b) + "@0x", b.sitePc, rest);
  }

  /** The destination, when there is one, is printed as sixteen digits after ` -> 0x`. */
  lemma DestinationLayout(b: Branch)
    ensures var t := Destination(b) + Details(b);
      && (b.HasDestination() ==>
            |t| >= 22 && t[..6] == " -> 0x" && HexValue(t[6..22]) == b.dstPc && t[22..] == Details(b))
      && (!b.HasDestination() ==> t == Details(b))
  {
    if b.HasDestination() {
      assert Destination(b) + Details(b) == " -> 0x" + Hex16(b.dstPc) + Details(b);
      HexFieldAt(" -> 0x", b.dstPc, Details(b));
    }
  }

  // ---------------------------------------------------------------- serde

  /** Field values in declaration order, as serde's derive visits them. */
  function Fields(b: Branch): seq<Member>
  {
    match b
    case DirectCall(site, dst) =>
      [Member("site_pc", JNumber(site)), Member("dst_pc", JNumber(dst))]
    case DirectJump(site, dst, taken) =>
      [Member("site_pc", JNumber(site)), Member("dst_pc", JNumber(dst)), Member("taken", JBool(taken))]
    case IndirectCall(site, dst, reg) =>
      [Member("site_pc", JNumber(site)), Member("dst_pc", JNumber(dst)), Member("reg_used", JString(reg))]
    case IndirectJump(site, dst, reg) =>
      [Member("site_pc", JNumber(site)), Member("dst_pc", JNumber(dst)), Member("reg_used", JString(reg))]
    case CallSentinel(site, sn, reg) =>
      [Member("site_pc", JNumber(site)), Member("seq_num", JNumber(sn)), Member("reg_or_ret", JString(reg))]
    case JumpSentinel(site, sn, reg) =>
      [Member("site_pc", JNumber(site)), Member("seq_num", JNumber(sn)), Member("reg_or_ret", JString(reg))]
    case ReturnSentinel(site, sn) =>
      [Member("site_pc", JNumber(site)), Member("seq_num", JNumber(sn))]
    case Return(site, dst) =>
      [Member("site_pc", JNumber(site)), Member("dst_pc", JNumber(dst))]
  }

  /** serde's externally tagged enum: an object with the variant's name as its one key. */
  function ToJson(b: Branch): (j: Json)
    ensures j.JObject? && |j.members| == 1 && j.members[0].key == VariantName(b)
    ensures j.members[0].value == JObject(Fields(b))
  {
    JObject([Member(VariantName(b), JObject(Fields(b)))])
  }

  /** `serde_json::to_string` of a branch. */
  function BranchJson(b: Branch): string
  {
    Write(ToJson(b))
  }

  function U64Member(m: Member, key: string): Option<u64>
  {
    if m.key == key && m.value.JNumber? && m.value.n < U64_LIMIT then Some(m.value.n as u64) else None
  }

  function StringMember(m: Member, key: string): Option<string>
  {
    if m.key == key && m.value.JString? then Some(m.value.s) else None
  }

  function BoolMember(m: Member, key: string): Option<bool>
  {
    if m.key == key && m.value.JBool? then Some(m.value.b) else None
  }

  /** Address pair `site_pc`, `dst_pc` as the first two fields. */
  function SiteDst(fs: seq<Member>): Option<(u64, u64)>
  {
    if |fs| < 2 then None
    else match (U64Member(fs[0], "site_pc"), U64Member(fs[1], "dst_pc"))
      case (Some(site), Some(dst)) => Some((site, dst))
      case _ => None
  }

  /** Sentinel fields `site_pc`, `seq_num` as the first two fields. */
  function SiteSeq(fs: seq<Member>): Option<(u64, u64)>
  {
    if |fs| < 2 then None
    else match (U64Member(fs[0], "site_pc"), U64Member(fs[1], "seq_num"))
      case (Some(site), Some(sn)) => Some((site, sn))
      case _ => None
  }

  /** The reverse of `ToJson`: the fields must appear as serde writes them. */
  function FromJson(j: Json): Option<Branch>
  {
    if !j.JObject? || |j.members| != 1 || !j.members[0].value.JObject? then None
    else
      var name := j.members[0].key;
      var fs := j.members[0].value.members;
      if name == "DirectCall" || name == "Return" then
        match SiteDst(fs)
        case Some((site, dst)) =>
          if |fs| != 2 then None
          else if name == "DirectCall" then Some(DirectCall(site, dst)) else Some(Return(site, dst))
        case None => None
      else if name == "DirectJump" then
        match SiteDst(fs)
        case Some((site, dst)) =>
          if |fs| != 3 then None
          else (match BoolMember(fs[2], "taken")
            case Some(t) => Some(DirectJump(site, dst, t))
            case None => None)
        case None => None
      else if name == "IndirectCall" || name == "IndirectJump" then
        match SiteDst(fs)
        case Some((site, dst)) =>
          if |fs| != 3 then None
          else (match StringMember(fs[2], "reg_used")
            case Some(r) => if name == "IndirectCall" then Some(IndirectCall(site, dst, r)) else Some(IndirectJump(site, dst, r))
            case None => None)
        case None => None
      else if name == "CallSentinel" || name == "JumpSentinel" then
        match SiteSeq(fs)
        case Some((site, sn)) =>
          if |fs| != 3 then None
          else (match StringMember(fs[2], "reg_or_ret")
            case Some(r) => if name == "CallSentinel" then Some(CallSentinel(site, sn, r)) else Some(JumpSentinel(site, sn, r))
            case None => None)
        case None => None
      else if name == "ReturnSentinel" then
        match SiteSeq(fs)
        case Some((site, sn)) => if |fs| != 2 then None else Some(ReturnSentinel(site, sn))
        case None => None
      else None
  }

  lemma FromToJson(b: Branch)
    ensures FromJson(ToJson(b)) == Some(b)
  {
  }

  /** Reading back the JSON text of a branch gives the branch, field for field. */
  lemma BranchJsonRoundTrip(b: Branch)
    ensures match Read(BranchJson(b)) case Some(j) => FromJson(j) == Some(b) case None => false
  {
    ReadWriteDocument(ToJson(b));
    FromToJson(b);
  }
}
