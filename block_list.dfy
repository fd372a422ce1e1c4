/**
  The reassembled trace (fil/bbl.rs). `From` puts the blocks into execution order and then
  resolves every sentinel branch from the block that ran next: its address is the missing
  destination. A `Vec<BasicBlock>` owns its blocks, so the list holds block values.
*/
module BlockList {
  import opened Numeric
  import opened Wrappers
  import opened Json
  import opened Branches
  import opened FilBlock
  import opened Sorting

  // ---------------------------------------------------------------- order

  function ValueKey(v: BlockValue): int
  {
    v.seqNum as int
  }

  predicate SortedBySeq(vs: seq<BlockValue>)
  {
    SortedByKey(vs, ValueKey)
  }

  predicate DistinctSeqNums(vs: seq<BlockValue>)
  {
    forall i, j :: 0 <= i < j < |vs| ==> vs[i].seqNum != vs[j].seqNum
  }

  /** Sorted with no sequence number twice is strictly sorted. */
  lemma SortedDistinctStrict(vs: seq<BlockValue>)
    requires SortedBySeq(vs) && DistinctSeqNums(vs)
    ensures StrictlySortedByKey(vs, ValueKey)
  {
  }

  // ---------------------------------------------------------------- resolution, as values

  /**
    The rewrite of one branch given the address of the block that ran next: a call sentinel
    carrying the return marker becomes a return, any other call sentinel an indirect call, a
    jump sentinel an indirect jump; every other branch, and no branch, stays as it is.
  */
  function ResolveBranch(br: Option<Branch>, dstPc: u64): (r: Option<Branch>)
    ensures r.Some? <==> br.Some?
    ensures br.Some? && br.value.IsSentinel() ==>
      r.value.sitePc == br.value.sitePc && r.value.HasDestination() && r.value.dstPc == dstPc
    ensures br.Some? && !br.value.IsSentinel() ==> r == br
    ensures r.Some? ==> !r.value.IsSentinel()
    ensures br.Some? && br.value.CallSentinel? ==> (r.value.Return? <==> br.value.regOrRet == RET_MARKER)
    ensures br.Some? && br.value.CallSentinel? && br.value.regOrRet != RET_MARKER ==>
      r.value.IndirectCall? && r.value.regUsed == br.value.regOrRet
    ensures br.Some? && br.value.JumpSentinel? ==> r.value.IndirectJump? && r.value.regUsed == br.value.regOrRet
  {
    match br
    case Some(CallSentinel(site, _, reg)) =>
      if reg == RET_MARKER then Some(Return(site, dstPc)) else Some(IndirectCall(site, dstPc, reg))
    case Some(JumpSentinel(site, _, reg)) => Some(IndirectJump(site, dstPc, reg))
    case _ => br
  }

  /** The assertion in `from` fails at `i`: a sentinel whose successor is not the next block run. */
  predicate GapAt(vs: seq<BlockValue>, i: nat)
  {
    i + 1 < |vs| && BreaksSequence(vs[i].branch, vs[i + 1].seqNum)
  }

  /** A sentinel whose next block is not the one numbered right after it. */
  predicate BreaksSequence(br: Option<Branch>, nextSeq: u64)
  {
    br.Some? && br.value.IsSentinel() && nextSeq as int != br.value.seqNum as int + 1
  }

  predicate Consistent(vs: seq<BlockValue>)
  {
    forall i: nat :: i < |vs| ==> !GapAt(vs, i)
  }

  /** Every block but the last resolved from its successor. */
  function Resolved(vs: seq<BlockValue>): (rs: seq<BlockValue>)
    ensures |rs| == |vs|
    ensures forall i {:trigger rs[i]} :: 0 <= i < |vs| ==>
      && rs[i].seqNum == vs[i].seqNum && rs[i].pc == vs[i].pc
      && rs[i].bytes == vs[i].bytes && rs[i].translation == vs[i].translation
    ensures forall i {:trigger rs[i]} :: 0 <= i < |vs| - 1 ==> rs[i].branch == ResolveBranch(vs[i].branch, vs[i + 1].pc)
    ensures |vs| > 0 ==> rs[|vs| - 1] == vs[|vs| - 1]
  {
    seq(|vs|, i requires 0 <= i < |vs| =>
      if i + 1 < |vs| then vs[i].(branch := ResolveBranch(vs[i].branch, vs[i + 1].pc)) else vs[i])
  }

  /** No sentinel is left before the last block. */
  predicate SentinelsOnlyLast(vs: seq<BlockValue>)
  {
    forall i :: 0 <= i < |vs| - 1 && vs[i].branch.Some? ==> !vs[i].branch.value.IsSentinel()
  }

  /** What `from` produces: execution order, no sentinel before the last block. */
  predicate ResolvedForm(vs: seq<BlockValue>)
  {
    SortedBySeq(vs) && SentinelsOnlyLast(vs)
  }

  /**
    Resolution removes every sentinel but the last block's, and leaves blocks without a
    sentinel exactly as they were.
  */
  lemma ResolvedShape(vs: seq<BlockValue>)
    ensures SentinelsOnlyLast(Resolved(vs))
    ensures forall i :: 0 <= i < |vs| && (vs[i].branch.None? || !vs[i].branch.value.IsSentinel()) ==>
      Resolved(vs)[i] == vs[i]
    ensures SortedBySeq(vs) ==> ResolvedForm(Resolved(vs))
  {
    forall i | 0 <= i < |vs| && (vs[i].branch.None? || !vs[i].branch.value.IsSentinel())
      ensures Resolved(vs)[i] == vs[i]
    {
      if i + 1 < |vs| {
        assert Resolved(vs)[i].branch == vs[i].branch;
      }
    }
  }

  /** A list already in resolved form passes the assertion and is its own resolution. */
  lemma {:induction false} ResolvedFormFixed(vs: seq<BlockValue>)
    requires SentinelsOnlyLast(vs)
    ensures Consistent(vs)
    ensures Resolved(vs) == vs
  {
    forall i: nat | i < |vs| ensures !GapAt(vs, i) {
      if i + 1 < |vs| && vs[i].branch.Some? {
        assert !vs[i].branch.value.IsSentinel();
      }
    }
    ResolvedShape(vs);
    forall i | 0 <= i < |vs| ensures Resolved(vs)[i] == vs[i] {
      if i + 1 < |vs| && vs[i].branch.Some? {
        assert !vs[i].branch.value.IsSentinel();
      }
    }
  }

  /** Resolving twice is resolving once. */
  lemma ResolvedIdempotent(vs: seq<BlockValue>)
    ensures Consistent(Resolved(vs))
    ensures Resolved(Resolved(vs)) == Resolved(vs)
  {
    ResolvedShape(vs);
    ResolvedFormFixed(Resolved(vs));
  }

  // ---------------------------------------------------------------- counting

  /** The number of blocks that are not lifted. */
  function CountUnlifted(vs: seq<BlockValue>): (n: nat)
    ensures n <= |vs|
  {
    if vs == [] then 0
    else CountUnlifted(vs[..|vs| - 1]) + (if vs[|vs| - 1].IsLifted() then 0 else 1)
  }

  /** No block is counted exactly when all are lifted, every block exactly when none is. */
  lemma {:induction false} CountUnliftedExtremes(vs: seq<BlockValue>)
    ensures CountUnlifted(vs) == 0 <==> forall i :: 0 <= i < |vs| ==> vs[i].IsLifted()
    ensures CountUnlifted(vs) == |vs| <==> forall i :: 0 <= i < |vs| ==> !vs[i].IsLifted()
  {
    if vs != [] {
      var n := |vs| - 1;
      CountUnliftedExtremes(vs[..n]);
      assert forall i :: 0 <= i < n ==> vs[..n][i] == vs[i];
    }
  }

  lemma {:induction false} CountRemove(ws: seq<BlockValue>, k: nat)
    requires k < |ws|
    ensures CountUnlifted(ws) == CountUnlifted(ws[..k] + ws[k + 1..]) + (if ws[k].IsLifted() then 0 else 1)
    decreases |ws|
  {
    if k < |ws| - 1 {
      var init := ws[..|ws| - 1];
      CountRemove(init, k);
      var rest := ws[..k] + ws[k + 1..];
      assert rest[..|rest| - 1] == init[..k] + init[k + 1..];
      assert rest[|rest| - 1] == ws[|ws| - 1];
    } else {
      assert ws[..k] + ws[k + 1..] == ws[..|ws| - 1];
    }
  }

  /** The count depends only on which blocks occur how often, not on their order. */
  lemma {:induction false} CountUnliftedPermutation(vs: seq<BlockValue>, ws: seq<BlockValue>)
    requires multiset(vs) == multiset(ws)
    ensures CountUnlifted(vs) == CountUnlifted(ws)
    decreases |vs|
  {
    if vs == [] {
      assert |ws| == |multiset(ws)| == 0;
    } else {
      var n := |vs| - 1;
      var last := vs[n];
      assert last in multiset(ws);
      var k :| 0 <= k < |ws| && ws[k] == last;
      var others := ws[..k] + ws[k + 1..];
      assert multiset(vs[..n]) == multiset(others) by {
        MultisetRemove(ws, k);
        MultisetRemove(vs, n);
        assert vs[..n] + vs[n + 1..] == vs[..n];
      }
      CountUnliftedPermutation(vs[..n], others);
      CountRemove(ws, k);
    }
  }

  lemma {:induction false} CountSameLiftState(vs: seq<BlockValue>, ws: seq<BlockValue>)
    requires |vs| == |ws|
    requires forall i :: 0 <= i < |vs| ==> vs[i].translation == ws[i].translation
    ensures CountUnlifted(vs) == CountUnlifted(ws)
    decreases |vs|
  {
    if vs != [] {
      CountSameLiftState(vs[..|vs| - 1], ws[..|ws| - 1]);
    }
  }

  /**
    Sorting and resolving change no lift state: the list `from` builds has as many
    translation errors as the blocks it was given.
  */
  lemma FromKeepsCount(before: seq<BlockValue>, sorted: seq<BlockValue>)
    requires multiset(sorted) == multiset(before)
    ensures CountUnlifted(Resolved(sorted)) == CountUnlifted(before)
  {
    CountSameLiftState(sorted, Resolved(sorted));
    CountUnliftedPermutation(sorted, before);
  }

  // ---------------------------------------------------------------- filtering

  /** The filter in `to_branch_json`: the blocks that have a branch, in their order. */
  function KeepBranched(vs: seq<BlockValue>): (ws: seq<BlockValue>)
    ensures |ws| <= |vs|
  {
    if vs == [] then []
    else
      var init := vs[..|vs| - 1];
      var last := vs[|vs| - 1];
      KeepBranched(init) + (if last.branch.Some? then [last] else [])
  }

  /** The filter keeps every block that has a branch as often as it occurs, and nothing else. */
  lemma {:induction false} KeepBranchedCount(vs: seq<BlockValue>, v: BlockValue)
    ensures multiset(KeepBranched(vs))[v] == if v.branch.Some? then multiset(vs)[v] else 0
  {
    if vs != [] {
      var n := |vs| - 1;
      assert vs == vs[..n] + [vs[n]];
      KeepBranchedCount(vs[..n], v);
    }
  }

  /** The filter keeps the order: filtering a concatenation filters each part. */
  lemma {:induction false} KeepBranchedAppend(vs: seq<BlockValue>, ws: seq<BlockValue>)
    ensures KeepBranched(vs + ws) == KeepBranched(vs) + KeepBranched(ws)
    decreases |ws|
  {
    if ws == [] {
      assert vs + ws == vs;
    } else {
      var n := |ws| - 1;
      assert (vs + ws)[..|vs + ws| - 1] == vs + ws[..n];
      assert (vs + ws)[|vs + ws| - 1] == ws[n];
      KeepBranchedAppend(vs, ws[..n]);
    }
  }

  /** Every kept block has a branch and comes from some position of the input. */
  lemma {:induction false} KeepBranchedFrom(vs: seq<BlockValue>, i: nat)
    requires i < |KeepBranched(vs)|
    ensures KeepBranched(vs)[i].branch.Some?
    ensures exists j :: 0 <= j < |vs| && vs[j] == KeepBranched(vs)[i]
  {
    var n := |vs| - 1;
    var k := KeepBranched(vs[..n]);
    if i < |k| {
      KeepBranchedFrom(vs[..n], i);
      var j :| 0 <= j < n && vs[..n][j] == k[i];
      assert vs[j] == KeepBranched(vs)[i];
    } else {
      assert KeepBranched(vs)[i] == vs[n];
    }
  }

  /**
    Filtering keeps a resolved list resolved: what it drops has no branch, and the kept
    blocks keep their order.
  */
  lemma {:induction false} KeepBranchedForm(vs: seq<BlockValue>)
    requires ResolvedForm(vs) && DistinctSeqNums(vs)
    ensures ResolvedForm(KeepBranched(vs)) && DistinctSeqNums(KeepBranched(vs))
  {
    if vs != [] {
      var n := |vs| - 1;
      var init := vs[..n];
      var last := vs[n];
      assert ResolvedForm(init) && DistinctSeqNums(init);
      KeepBranchedForm(init);
      var k := KeepBranched(init);
      forall i | 0 <= i < |k| ensures k[i].branch.Some? {
        KeepBranchedFrom(init, i);
      }
      forall i | 0 <= i < |k|
        ensures k[i].seqNum < last.seqNum && !k[i].branch.value.IsSentinel()
      {
        KeepBranchedFrom(init, i);
        var j :| 0 <= j < |init| && init[j] == k[i];
        assert ValueKey(vs[j]) <= ValueKey(vs[n]);
      }
      KeepBranchedLast(k, last);
    }
  }

  /** Appending a later block with any branch to a resolved list keeps it resolved. */
  lemma KeepBranchedLast(k: seq<BlockValue>, last: BlockValue)
    requires ResolvedForm(k) && DistinctSeqNums(k)
    requires forall i :: 0 <= i < |k| ==> k[i].branch.Some?
    requires forall i :: 0 <= i < |k| ==> k[i].seqNum < last.seqNum && !k[i].branch.value.IsSentinel()
    ensures var r := k + (if last.branch.Some? then [last] else []);
      ResolvedForm(r) && DistinctSeqNums(r)
  {
  }


  // ---------------------------------------------------------------- the list

  /** The positions of the blocks that are not lifted: an independent count of the errors. */
  function UnliftedPositions(vs: seq<BlockValue>): set<nat>
  {
    set i: nat | i < |vs| && !vs[i].IsLifted()
  }

  lemma {:induction false} CountUnliftedPositions(vs: seq<BlockValue>)
    ensures CountUnlifted(vs) == |UnliftedPositions(vs)|
  {
    if vs != [] {
      var n := |vs| - 1;
      CountUnliftedPositions(vs[..n]);
      var before := UnliftedPositions(vs[..n]);
      assert n !in before;
      if vs[n].IsLifted() {
        assert UnliftedPositions(vs) == before;
      } else {
        assert UnliftedPositions(vs) == before + {n};
      }
    }
  }

  /** The panic of `from`'s assertion, at the position of the offending sentinel. */
  datatype SequenceGap = SequenceGap(index: nat)

  /** `BasicBlockList`: the blocks in the order `From` gives them. */
  datatype BasicBlockList = BasicBlockList(list: seq<BlockValue>)
  {
    function Len(): (n: nat)
      ensures n == |list|
    {
      |list|
    }

    function IsEmpty(): (r: bool)
      ensures r <==> Len() == 0
    {
      |list| == 0
    }

    /** `trans_err_cnt`: how many blocks failed to lift. */
    function TransErrCnt(): (n: nat)
      ensures n == |UnliftedPositions(list)|
      ensures n <= Len()
      ensures n == 0 <==> forall i :: 0 <= i < |list| ==> list[i].IsLifted()
      ensures n == Len() <==> forall i :: 0 <= i < |list| ==> !list[i].IsLifted()
    {
      CountUnliftedPositions(list);
      CountUnliftedExtremes(list);
      CountUnlifted(list)
    }

    /**
      `to_branch_json` without the file write and without pretty-printing: the blocks that
      have a branch are copied, run through `From` again and written as compact JSON. `order`
      is the copies once sorted. For a list in the form `From` produces, with distinct
      sequence numbers, this cannot fail and the second `From` changes nothing.
    */
    method ToBranchJson() returns (r: Result<string, SequenceGap>, ghost order: seq<BlockValue>)
      ensures SortedBySeq(order) && multiset(order) == multiset(KeepBranched(list))
      ensures r.Ok? <==> Consistent(order)
      ensures r.Ok? ==> r.value == Write(ListJson(Resolved(order)))
      ensures ResolvedForm(list) && DistinctSeqNums(list) ==>
        r == Ok(Write(ListJson(KeepBranched(list))))
    {
      var withBranch := KeepBranched(list);
      var res, sorted := From(withBranch);
      order := sorted;
      match res {
        case Ok(bl) =>
          r := Ok(Write(ListJson(bl.list)));
        case Err(e) =>
          r := Err(e);
      }
      if ResolvedForm(list) && DistinctSeqNums(list) {
        KeepBranchedForm(list);
      }
    }
  }

  /**
    `BasicBlockList::from`: the vector is sorted in place by sequence number, then each
    sentinel is resolved from the block after it. `sorted` is the blocks in sorted order
    before resolution (`sort_unstable_by_key` fixes no order among equal keys); the
    assertion's panic is the `Err` result.
  */
  method From(list: seq<BlockValue>) returns (r: Result<BasicBlockList, SequenceGap>, ghost sorted: seq<BlockValue>)
    ensures |sorted| == |list| && SortedBySeq(sorted) && multiset(sorted) == multiset(list)
    ensures r.Ok? <==> Consistent(sorted)
    ensures r.Ok? ==> r.value.list == Resolved(sorted)
    ensures r.Err? ==> GapAt(sorted, r.error.index) && forall k: nat :: k < r.error.index ==> !GapAt(sorted, k)
    ensures ResolvedForm(list) && DistinctSeqNums(list) ==> r == Ok(BasicBlockList(list))
  {
    var a := new BlockValue[|list|](i requires 0 <= i < |list| => list[i]);
    assert a[..] == list;
    SortByKey(a, ValueKey);
    sorted := a[..];
    assert |sorted| == |list| by {
      assert |sorted| == |multiset(sorted)| == |multiset(list)| == |list|;
    }
    var gap := ResolveSentinels(a);
    if ResolvedForm(list) && DistinctSeqNums(list) {
      assert sorted == list by {
        SortedDistinctStrict(list);
        SortedUnique(list, sorted, ValueKey);
      }
      ResolvedFormFixed(sorted);
    }
    match gap {
      case Some(k) => r := Err(SequenceGap(k));
      case None => r := Ok(BasicBlockList(a[..]));
    }
  }

  /**
    The loop of `from` over the sorted blocks: each sentinel is resolved from the block after
    it once the assertion that that block ran next holds; other branches are left alone. The
    first position where the assertion fails is returned, with the blocks before it resolved.
  */
  method ResolveSentinels(a: array<BlockValue>) returns (gap: Option<nat>)
    modifies a
    ensures gap.None? <==> Consistent(old(a[..]))
    ensures gap.None? ==> a[..] == Resolved(old(a[..]))
    ensures gap.Some? ==> GapAt(old(a[..]), gap.value) && forall k: nat :: k < gap.value ==> !GapAt(old(a[..]), k)
  {
    ghost var s := a[..];
    ghost var rs := Resolved(s);
    var n := a.Length;
    var idx := 0;
    while idx < n
      invariant idx <= n
      invariant forall j :: 0 <= j < idx ==> a[j] == rs[j]
      invariant forall j :: idx <= j < n ==> a[j] == s[j]
      invariant forall k: nat :: k < idx ==> !GapAt(s, k)
    {
      var nextIdx := idx + 1;
      if nextIdx >= n {
        break;
      }
      var dstPc := a[nextIdx].pc;
      var nextSeq := a[nextIdx].seqNum;
      var ok, resolved := ResolveOne(a[idx], dstPc, nextSeq);
      if !ok {
        assert GapAt(s, idx);
        return Some(idx);
      }
      ResolvedStep(s, a[..], idx, resolved);
      a[idx] := resolved;
      idx := idx + 1;
    }
    ResolvedThrough(s, a[..], idx);
    return None;
  }

  /**
    The body of `from`'s loop for one block, `next` being the block after it: a sentinel is
    rewritten with the next block's address once the assertion on the next block's sequence
    number holds; any other branch is left alone. `ok` is false where the assertion fails.
  */
  method ResolveOne(bb: BlockValue, dstPc: u64, nextSeq: u64) returns (ok: bool, r: BlockValue)
    ensures ok <==> !BreaksSequence(bb.branch, nextSeq)
    ensures ok ==> r == bb.(branch := ResolveBranch(bb.branch, dstPc))
  {
    r := bb;
    match bb.branch {
      case Some(CallSentinel(site, sn, reg)) =>
        if nextSeq as int != sn as int + 1 {
          return false, r;
        }
        if reg == RET_MARKER {
          r := bb.(branch := Some(Return(site, dstPc)));
        } else {
          r := bb.(branch := Some(IndirectCall(site, dstPc, reg)));
        }
      case Some(JumpSentinel(site, sn, reg)) =>
        if nextSeq as int != sn as int + 1 {
          return false, r;
        }
        r := bb.(branch := Some(IndirectJump(site, dstPc, reg)));
      case _ =>
    }
    return true, r;
  }

  /**
    When the loop of `from` stops at the last block without finding a gap, the blocks before
    it are resolved and the last one is as it was: the whole list is resolved.
  */
  lemma ResolvedThrough(s: seq<BlockValue>, cur: seq<BlockValue>, idx: nat)
    requires |cur| == |s| && idx <= |s| && idx + 1 >= |s|
    requires forall j :: 0 <= j < idx ==> cur[j] == Resolved(s)[j]
    requires forall j :: idx <= j < |s| ==> cur[j] == s[j]
    requires forall k: nat :: k < idx ==> !GapAt(s, k)
    ensures Consistent(s) && cur == Resolved(s)
  {
    forall k: nat | idx <= k ensures !GapAt(s, k) {
      assert k + 1 >= |s|;
    }
  }

  /** One pass of the loop of `from` keeps its invariant: the block at `idx` is now resolved. */
  lemma ResolvedStep(s: seq<BlockValue>, cur: seq<BlockValue>, idx: nat, resolved: BlockValue)
    requires |cur| == |s| && idx + 1 < |s|
    requires forall j :: 0 <= j < idx ==> cur[j] == Resolved(s)[j]
    requires forall j :: idx <= j < |s| ==> cur[j] == s[j]
    requires forall k: nat :: k < idx ==> !GapAt(s, k)
    requires !BreaksSequence(cur[idx].branch, cur[idx + 1].seqNum)
    requires resolved == cur[idx].(branch := ResolveBranch(cur[idx].branch, cur[idx + 1].pc))
    ensures forall j :: 0 <= j < idx + 1 ==> cur[idx := resolved][j] == Resolved(s)[j]
    ensures forall j :: idx + 1 <= j < |s| ==> cur[idx := resolved][j] == s[j]
    ensures forall k: nat :: k < idx + 1 ==> !GapAt(s, k)
  {
    ResolvedAt(s, idx);
  }

  /** A resolved block: its branch rewritten from its successor's address. */
  lemma ResolvedAt(vs: seq<BlockValue>, i: nat)
    requires i + 1 < |vs|
    ensures Resolved(vs)[i] == vs[i].(branch := ResolveBranch(vs[i].branch, vs[i + 1].pc))
  {
  }

  // ---------------------------------------------------------------- serde

  /** `{"list":[...]}`, each block as `BlockJson` writes it. */
  function ListJson(vs: seq<BlockValue>): Json
  {
    JObject([Member("list", JArray(BlockJsons(vs)))])
  }

  function BlockJsons(vs: seq<BlockValue>): (js: seq<Json>)
    ensures |js| == |vs| && forall i :: 0 <= i < |vs| ==> js[i] == BlockJson(vs[i])
  {
    if vs == [] then [] else [BlockJson(vs[0])] + BlockJsons(vs[1..])
  }

  function FieldsOf(v: BlockValue): (u64, u64, Option<Branch>)
  {
    (v.seqNum, v.pc, v.branch)
  }

  /** The blocks' serialised fields read back from the list's JSON value. */
  function ListFieldsFromJson(j: Json): Option<seq<(u64, u64, Option<Branch>)>>
  {
    if j.JObject? && |j.members| == 1 && j.members[0].key == "list" && j.members[0].value.JArray? then
      ElementsFields(j.members[0].value.elements)
    else None
  }

  function ElementsFields(js: seq<Json>): Option<seq<(u64, u64, Option<Branch>)>>
  {
    if js == [] then Some([])
    else match (BlockFieldsFromJson(js[0]), ElementsFields(js[1..]))
      case (Some(f), Some(fs)) => Some([f] + fs)
      case _ => None
  }

  /** What reading back a block's serialised form keeps: each block's three fields, in order. */
  predicate FieldsMatch(fs: seq<(u64, u64, Option<Branch>)>, vs: seq<BlockValue>)
  {
    |fs| == |vs| && forall i :: 0 <= i < |vs| ==> fs[i] == FieldsOf(vs[i])
  }

  lemma {:induction false} ElementsFieldsOf(vs: seq<BlockValue>)
    ensures ElementsFields(BlockJsons(vs)).Some? && FieldsMatch(ElementsFields(BlockJsons(vs)).value, vs)
  {
    if vs != [] {
      ElementsFieldsOf(vs[1..]);
      BlockFieldsOf(vs[0]);
      assert BlockJsons(vs)[1..] == BlockJsons(vs[1..]);
    }
  }

  lemma BlockFieldsOf(v: BlockValue)
    ensures BlockFieldsFromJson(BlockJson(v)) == Some(FieldsOf(v))
  {
    if v.branch.Some? {
      FromToJson(v.branch.value);
    }
  }

  /** The written list reads back as every block's sequence number, address and branch, in order. */
  lemma ListJsonRoundTrip(vs: seq<BlockValue>)
    ensures match Read(Write(ListJson(vs)))
      case Some(j) => ListFieldsFromJson(j).Some? && FieldsMatch(ListFieldsFromJson(j).value, vs)
      case None => false
  {
    ReadWriteDocument(ListJson(vs));
    ElementsFieldsOf(vs);
  }
}

