# panda-il-trace and the panda-gdb monitor grammar, modelled in Dafny

panda-il-trace is a PANDA plugin that records which basic blocks a guest process executes and
rebuilds the call stack from them. Before each block runs, the plugin checks that the guest is
in user mode, that the current process is the traced one and that the block's bytes can be read.
Only then does it number the block from a global counter and queue it (`lib.rs`).

Offline, each recorded block is lifted to falcon IL. The first branch in the IL is classified
(`fil/bb.rs`, and the older `il.rs`) as one of:

- a direct call or jump;
- a *sentinel*, standing for an indirect call, an indirect jump or a return whose destination
  is not yet known.

`BasicBlockList::from` (`fil/bbl.rs`) then works on the whole list:

1. It sorts the blocks by sequence number.
2. It resolves each sentinel from the address of the block that ran next.
3. It asserts that this next block is numbered right after the sentinel's block.

The resolved list can be:

- written as JSON;
- rendered as a Lisp-like call stack (`callstack.rs`), where every call opens a parenthesis and
  every return closes one.

The branch type, its `Display` text and its serde JSON form are in `fil/branch.rs`.

panda-gdb accepts `monitor` commands from GDB (`taint`, `check_taint`, `get_taint`, `help`).
They are parsed by a small parsing-expression grammar (`monitor_commands/parser.rs`).

The modules of this project:

| module | file | what it holds |
|---|---|---|
| `Wrappers` | wrappers.dfy | `Option` and `Result` |
| `Numeric` | numeric.dfy | machine integers, `as u32`, fixed-width hex and decimal text and their inverses |
| `Json` | json.dfy | serde_json's compact writer and a reader, with the round trip |
| `Branches` | branch.dfy | `Branch`, its `Display` text and its externally tagged JSON form |
| `Il` | il.dfy | the abstract IL and the shared search for the first qualifying branch |
| `FilBlock` | basic_block.dfy | fil's `BasicBlock` class: `new`, `lift`, `find_branch`, `process`, serde fields |
| `Sorting` | sorting.dfy | in-place insertion sort by key, and the uniqueness of a strictly sorted permutation |
| `BlockList` | block_list.dfy | `BasicBlockList`: `from`, `len`, `is_empty`, `trans_err_cnt`, `to_branch_json` |
| `LegacyIl` | legacy_il.dfy | il.rs's `BasicBlock` with its positional `Branch` and ungated link-register rule |
| `CallStack` | callstack.dfy | `to_lisp` and the balanced-parenthesis facts about its output |
| `MonitorParser` | parser.dfy | the monitor-command grammar, its canonical text and the round trip |
| `Sequencer` | sequencer.dfy | `every_basic_block`: the gates, the `BB_NUM` counter and the `BBQ` queue |

The model follows the constructors that the code actually uses:

- There is one `Branch` type, fil's.
- Call and jump sentinels carry `reg_or_ret`, the name used at `fil/bb.rs:221-240` and
  `fil/bbl.rs:42-73`, and the JSON key the test at `fil/mod.rs:243` expects. The declaration at
  `fil/branch.rs:28-37` calls this field `reg`.
- `ReturnSentinel` is kept but nothing produces it.
- `find_branch` builds `DirectJump` with `taken` set to false. `fil/bb.rs:207-210` leaves the
  field out.
- `callstack.rs:4` imports `BasicBlockList` from `crate::il`, but its match uses fil's
  struct-style variants. So `to_lisp` is modelled over fil's list.

## Model

| member | source | states |
|---|---|---|
| Numeric.TruncateU32 | panda-gdb/src/monitor_commands/parser.rs:38 | `as u32` keeps a value below 2^32 unchanged and always gives a value below 2^32 |
| Numeric.HexPadded | panda-il-trace/src/fil/branch.rs:52 | `{:016x}`-style padding gives exactly `width` lower-case hex digits |
| Numeric.HexPaddedRoundTrip | panda-il-trace/src/fil/branch.rs:52 | the padded digits read back in base 16 as the value they print |
| Numeric.Hex16 | panda-il-trace/src/fil/branch.rs:52 | every u64 prints as exactly 16 lower-case hex digits |
| Numeric.Hex16RoundTrip | panda-il-trace/src/fil/branch.rs:52 | the 16 digits parse back to the original u64 |
| Numeric.Hex16Injective | panda-il-trace/src/fil/branch.rs:52 | two addresses with the same 16-digit text are equal |
| Numeric.Decimal | panda-il-trace/src/fil/branch.rs:89 | `{}` on an integer gives a non-empty string of decimal digits, with a leading `0` only for 0 |
| Numeric.DecimalRoundTrip | panda-il-trace/src/fil/branch.rs:89 | the decimal text parses back to the number, as `parse::<u64>` reads it |
| Json.ReadWriteDocument | panda-il-trace/src/fil/mod.rs:193-211 | compact JSON text written for any value reads back as that value |
| Json.ReadWrite | panda-il-trace/src/fil/mod.rs:193-211 | a written value followed by any text that does not continue a number reads back, leaving exactly that text |
| Branches.DisplaySite | panda-il-trace/src/fil/branch.rs:48-109 | every variant prints its name and `@0x`, then 16 digits that read back as `site_pc`, then the destination and details |
| Branches.DestinationLayout | panda-il-trace/src/fil/branch.rs:51-106 | the kinds with a destination print ` -> 0x` and 16 digits that read back as `dst_pc`; sentinels print no destination; the details follow |
| Branches.HexFieldAt | panda-il-trace/src/fil/branch.rs:52 | a 16-digit field in the middle of a text sits at a fixed position and reads back as its value |
| Branches.FromToJson | panda-il-trace/src/fil/mod.rs:193-211 | the tagged object, with the fields in declaration order, decodes back to the branch |
| Branches.BranchJsonRoundTrip | panda-il-trace/src/fil/mod.rs:193-211 | the JSON text of any branch reads back as that branch, field for field |
| Il.TargetOf | panda-il-trace/src/fil/bb.rs:151-152 | an instruction gives a target exactly when it is an addressed branch to a constant with a u64 value or to a scalar |
| Il.ContainsAt | panda-il-trace/src/fil/bb.rs:220 | `str::contains` holds exactly when the needle occurs at some position |
| Il.FirstInBlock | panda-il-trace/src/fil/bb.rs:150-251 | the inner scan finds the first qualifying instruction from a position, or reports that none qualifies |
| Il.FirstPositionFrom | panda-il-trace/src/fil/bb.rs:149-252 | the outer scan finds the first IL block holding a qualifying instruction, and its first such instruction |
| Il.FirstPositionIsFirst | panda-il-trace/src/fil/bb.rs:149-252 | the position found is `(b, i)` exactly when `(b, i)` qualifies and nothing qualifies before it |
| Il.FirstPositionNone | panda-il-trace/src/fil/bb.rs:254 | no position is found exactly when no instruction of the graph qualifies |
| Il.FirstHitCongruent | panda-il-trace/src/il.rs:130-162 | two call rules that agree on every instruction give the same first hit |
| Il.FindFirstHit | panda-il-trace/src/fil/bb.rs:147-257 | the nested loop with early return computes the first hit of the search function |
| FilBlock.Classify | panda-il-trace/src/fil/bb.rs:195-247 | a constant target gives a direct call or jump, and a call only when flagged; a scalar gives a sentinel carrying the block's `seq_num`; the site is the instruction's address |
| FilBlock.LiftCaches | panda-il-trace/src/fil/bb.rs:121-134 | a cached translation is never replaced; a missing one takes the new attempt; once present it stays |
| FilBlock.BranchOfNone | panda-il-trace/src/fil/bb.rs:254-256 | no branch for an unlifted block; for a lifted one, no branch exactly when no instruction qualifies |
| FilBlock.BranchOfFirst | panda-il-trace/src/fil/bb.rs:155-243 | the branch is built from the first qualifying instruction: `temp` scalars give a return sentinel whatever the call flag; otherwise the flag (x86: previous instruction stores through the stack pointer; link-register architectures: previous instruction writes it) picks call or jump |
| FilBlock.BasicBlock.constructor | panda-il-trace/src/fil/bb.rs:53-82 | a new block stores `seq_num`, `pc` and `bytes` as given, with no translation and no branch |
| FilBlock.BasicBlock.Clone | panda-il-trace/src/fil/bb.rs:18 | a clone has the same fields as the original |
| FilBlock.BasicBlock.Lift | panda-il-trace/src/fil/bb.rs:121-134 | the translation is set only when none was cached and the lift succeeds; the branch is untouched; the cached value is returned |
| FilBlock.BasicBlock.FindBranch | panda-il-trace/src/fil/bb.rs:146-258 | the result is the classification of the first qualifying instruction of the cached translation |
| FilBlock.BasicBlock.Process | panda-il-trace/src/fil/bb.rs:139-142 | after `process` the translation is `lift`'s and the branch is `find_branch` of that translation |
| FilBlock.BlockJsonRoundTrip | panda-il-trace/src/fil/bb.rs:18-28 | the JSON of a block reads back as its `seq_num`, `pc` and `branch`; bytes and translation are skipped |
| FilBlock.BlockJsonFields | panda-il-trace/src/fil/mod.rs:243-246 | two blocks have the same JSON exactly when their `seq_num`, `pc` and `branch` agree |
| Sorting.Swap | panda-il-trace/src/fil/bbl.rs:18 | an exchange of two elements changes nothing else and keeps the multiset |
| Sorting.SortByKey | panda-il-trace/src/fil/bbl.rs:18 | `sort_unstable_by_key` leaves the array sorted by key and a permutation of what it was |
| Sorting.SortedUnique | panda-il-trace/src/fil/bbl.rs:18 | with distinct keys, a strictly sorted sequence is the only sorted permutation of its elements |
| BlockList.SortedDistinctStrict | panda-il-trace/src/fil/bbl.rs:18 | sorted with no sequence number twice means strictly sorted |
| BlockList.ResolveBranch | panda-il-trace/src/fil/bbl.rs:42-73 | a call sentinel with the return marker becomes `Return`, any other call sentinel `IndirectCall`, a jump sentinel `IndirectJump` carrying the sentinel's register, each with the site and the next block's address; other branches and no branch are unchanged; no sentinel remains |
| BlockList.Resolved | panda-il-trace/src/fil/bbl.rs:22-77 | resolution keeps the length and every block's `seq_num`, `pc`, bytes and lift state, rewrites each branch but the last from its successor's `pc`, and leaves the last block alone |
| BlockList.ResolvedShape | panda-il-trace/src/fil/bbl.rs:28-31 | after resolution no sentinel is left before the last block; blocks without a sentinel are unchanged; sorted input gives the form `from` produces |
| BlockList.ResolvedFormFixed | panda-il-trace/src/fil/bbl.rs:28-31 | a list with no sentinel before its last block passes every assertion and is its own resolution |
| BlockList.ResolvedIdempotent | panda-il-trace/src/fil/bbl.rs:74 | resolving a resolved list passes every assertion and changes nothing |
| BlockList.CountUnlifted | panda-il-trace/src/fil/bbl.rs:83-85 | the number of unlifted blocks is at most the list length |
| BlockList.CountUnliftedExtremes | panda-il-trace/src/fil/bbl.rs:83-85 | the count is 0 exactly when every block is lifted, and the length exactly when none is |
| BlockList.CountUnliftedPermutation | panda-il-trace/src/fil/bbl.rs:18 | reordering the blocks does not change the count |
| BlockList.CountSameLiftState | panda-il-trace/src/fil/bbl.rs:44-72 | rewriting branches only does not change the count |
| BlockList.FromKeepsCount | panda-il-trace/src/fil/mod.rs:248-251 | the list `from` builds has as many translation errors as the blocks it was given |
| BlockList.CountUnliftedPositions | panda-il-trace/src/fil/bbl.rs:83-85 | the count is the number of positions holding an unlifted block |
| BlockList.KeepBranched | panda-il-trace/src/fil/bbl.rs:108-113 | the filter never yields more blocks than it is given |
| BlockList.KeepBranchedCount | panda-il-trace/src/fil/bbl.rs:108-113 | the filter keeps every block that has a branch as often as it occurs, and nothing else |
| BlockList.KeepBranchedAppend | panda-il-trace/src/fil/bbl.rs:108-113 | filtering a concatenation filters each part, so the original order is kept |
| BlockList.KeepBranchedFrom | panda-il-trace/src/fil/bbl.rs:108-113 | every kept block has a branch and comes from the input |
| BlockList.KeepBranchedForm | panda-il-trace/src/fil/bbl.rs:108-115 | filtering a list in `from`'s form, with distinct sequence numbers, keeps that form |
| BlockList.KeepBranchedLast | panda-il-trace/src/fil/bbl.rs:108-115 | a list in `from`'s form whose blocks all have a branch, with distinct sequence numbers, stays in that form when a later block is appended exactly when it has a branch, as the filter does |
| BlockList.BasicBlockList.IsEmpty | panda-il-trace/src/fil/bbl.rs:93-95 | `is_empty` holds exactly when `len` is 0 |
| BlockList.BasicBlockList.TransErrCnt | panda-il-trace/src/fil/bbl.rs:83-85 | `trans_err_cnt` is the number of unlifted blocks, at most `len`; it is 0 exactly when all are lifted, and `len` exactly when none is |
| BlockList.BasicBlockList.ToBranchJson | panda-il-trace/src/fil/bbl.rs:103-127 | the blocks with a branch are sorted and resolved again and written as JSON; the write fails exactly where an assertion of `from` would; for a list in `from`'s form with distinct numbers, the output is the filtered list unchanged |
| BlockList.From | panda-il-trace/src/fil/bbl.rs:16-80 | `from` sorts a permutation of its input by `seq_num`; it succeeds exactly when no sentinel's successor breaks the sequence, and then returns the resolution; otherwise it fails at the first such sentinel; on its own output it is the identity |
| BlockList.ResolveSentinels | panda-il-trace/src/fil/bbl.rs:22-77 | the in-place loop either resolves the whole array or stops at the first position whose assertion fails |
| BlockList.ResolveOne | panda-il-trace/src/fil/bbl.rs:36-75 | one pass of the loop body: the assertion holds exactly when the block is no sentinel or its successor is numbered next, and then the branch is rewritten as resolution says |
| BlockList.ResolvedThrough | panda-il-trace/src/fil/bbl.rs:28-31 | when the loop reaches the last block, every block before it is resolved and the list passes every assertion |
| BlockList.BlockJsons | panda-il-trace/src/fil/bbl.rs:117 | the list is serialised block by block, in order |
| BlockList.ListJsonRoundTrip | panda-il-trace/src/fil/mod.rs:253 | the JSON of the list reads back as every block's `seq_num`, `pc` and `branch`, in order |
| LegacyIl.Classify | panda-il-trace/src/il.rs:165-206 | il.rs's classification into its positional `Branch`: constant targets give a direct call or jump, scalars a sentinel with the block's `seq_num` |
| LegacyIl.BasicBlock.constructor | panda-il-trace/src/il.rs:52-80 | a new block stores its fields and has no translation |
| LegacyIl.BasicBlock.Lift | panda-il-trace/src/il.rs:104-117 | the translation is set only when none was cached and the lift succeeds |
| LegacyIl.BasicBlock.FindBranch | panda-il-trace/src/il.rs:121-220 | the result is il.rs's classification of the first qualifying instruction |
| LegacyIl.BranchOfNone | panda-il-trace/src/il.rs:216-218 | no branch for an unlifted block; for a lifted one, no branch exactly when no instruction qualifies |
| LegacyIl.BranchOfFirst | panda-il-trace/src/il.rs:130-206 | the branch comes from the first qualifying instruction, with the call flag being (stack-pointer store on x86) or (link register written), only after the first instruction |
| LegacyIl.FromFil | panda-il-trace/src/il.rs:16-24 | fil's branch maps to the il.rs variant of the same name (a return sentinel to a call sentinel carrying the return marker), keeping the site, the destination, the register and the sequence number |
| LegacyIl.AgreesWithFil | panda-il-trace/src/il.rs:130-162 | il.rs and fil/bb.rs find the same branch, up to the branch type, except on x86 code that writes the link register |
| LegacyIl.LinkRegRuleUngated | panda-il-trace/src/il.rs:155-161 | on x86 a jump after a link-register write is a call for il.rs and a jump for fil/bb.rs |
| LegacyIl.DirectCallAtSix | panda-il-trace/src/il.rs:312-335 | `call 0x1337` at offset 6, after `mov` and `inc`, is classified `DirectCall(6, 0x1337)` |
| CallStack.Closes | panda-il-trace/src/callstack.rs:51 | the pending stack only ever holds `)` |
| CallStack.ToLisp | panda-il-trace/src/callstack.rs:28-75 | `to_lisp` gives `()` for an empty list, and otherwise what the blocks write in order followed by the drained stack |
| CallStack.WriteBlock | panda-il-trace/src/callstack.rs:36-63 | one block: a call at position 0 is written bare, a later call writes `(` and its `Display` and pushes one `)`; a return pops and writes one `)` only when one is pending; anything else writes nothing |
| CallStack.ClosesFront | panda-il-trace/src/callstack.rs:70-72 | draining the stack writes all its `)` |
| CallStack.SilentBlocks | panda-il-trace/src/callstack.rs:36-62 | jumps, sentinels, blocks without a branch and returns with nothing pending write nothing and push nothing |
| CallStack.CallDisplayParenFree | panda-il-trace/src/fil/branch.rs:51-73 | a call's `Display` text has no parenthesis when its register name has none |
| CallStack.StepShape | panda-il-trace/src/callstack.rs:36-63 | per block: the `(` written equal the calls opened, the `)` written are the ones popped, and no prefix closes more than is pending |
| CallStack.RenderBalanced | panda-il-trace/src/callstack.rs:35-72 | from any block on, the output has one `(` per later call and one `)` per later call plus the pending ones, and no prefix closes more than it opened plus the pending |
| CallStack.LispBalanced | panda-il-trace/src/callstack.rs:28-75 | the whole output has as many `(` as `)`, one per call after the first block, and in every prefix the `)` never outnumber the `(` |
| MonitorParser.Span | panda-gdb/src/monitor_commands/parser.rs:51-68 | a greedy repetition reads the longest prefix in its class |
| MonitorParser.SpanOf | panda-gdb/src/monitor_commands/parser.rs:51-68 | the repetition stops exactly where the class does |
| MonitorParser.Keyword | panda-gdb/src/monitor_commands/parser.rs:33-49 | a literal succeeds only on input that starts with it, and leaves what follows |
| MonitorParser.Ws | panda-gdb/src/monitor_commands/parser.rs:68 | `_` fails exactly on empty input or input that does not start with a blank; otherwise it reads every leading blank |
| MonitorParser.Number | panda-gdb/src/monitor_commands/parser.rs:57-66 | `number` succeeds exactly when the hex or the decimal alternative does, and reads at least one character |
| MonitorParser.RegisterRule | panda-gdb/src/monitor_commands/parser.rs:51-55 | `register` reads an identifier `[A-Za-z][A-Za-z0-9]*`, the longest one (no letter or digit follows it), and returns what the register type makes of exactly that name |
| MonitorParser.RegisterNoBacktrack | panda-gdb/src/monitor_commands/parser.rs:51-55 | when the register type rejects the whole run of letters and digits, `register` fails; it never falls back to a shorter prefix such as `rax` in `rax1` |
| MonitorParser.Target | panda-gdb/src/monitor_commands/parser.rs:41-43 | `taint_target` reads at least one character |
| MonitorParser.TaintRule | panda-gdb/src/monitor_commands/parser.rs:36-39 | `taint` gives a `Taint` command and reads at least one character |
| MonitorParser.CommandRule | panda-gdb/src/monitor_commands/parser.rs:26-31 | `command` reads at least one character when it succeeds |
| MonitorParser.HexNumber | panda-gdb/src/monitor_commands/parser.rs:58-61 | `0x` and hex digits of either case whose value fits in a u64 read as that value |
| MonitorParser.DecNumber | panda-gdb/src/monitor_commands/parser.rs:62-65 | decimal digits whose value fits in a u64 read as that value |
| MonitorParser.HexOverflowReadsZero | panda-gdb/src/monitor_commands/parser.rs:57-66 | when `0x` and digits overflow, the decimal alternative reads only the `0` and leaves `x` and the digits |
| MonitorParser.DecOverflowFails | panda-gdb/src/monitor_commands/parser.rs:62-66 | decimal digits that overflow a u64 make `number` fail |
| MonitorParser.HelpNeedsBlank | panda-gdb/src/monitor_commands/parser.rs:33-34 | `help` alone is rejected; `help` and one or more blanks is `Help` |
| MonitorParser.LeadingBlankRejected | panda-gdb/src/monitor_commands/parser.rs:26-31 | a command that starts with a blank is rejected |
| MonitorParser.TargetOf | panda-gdb/src/monitor_commands/parser.rs:41-43 | an address written `*0x` and 16 digits, or a register written by name, followed by the end or anything but a letter or digit, reads back as that target |
| MonitorParser.TaintLabelTruncated | panda-gdb/src/monitor_commands/parser.rs:36-39 | `taint` with any u64 label parses with the label taken modulo 2^32 |
| MonitorParser.ParseFormat | panda-gdb/src/monitor_commands/parser.rs:14-49 | every command, written in its canonical text, parses back to itself |
| MonitorParser.ParseQuery | panda-gdb/src/monitor_commands/parser.rs:45-49 | `check_taint` and `get_taint` followed by a target parse as that query |
| MonitorParser.Dispatch | panda-gdb/src/monitor_commands/parser.rs:26-31 | each alternative of `command` fails unless the input starts with its keyword's first letter |
| MonitorParser.Chooses | panda-gdb/src/monitor_commands/parser.rs:14-31 | the first alternative that succeeds decides the command, and the parse succeeds only if it reads the whole input |
| MonitorParser.HexOverflowRejected | panda-gdb/src/monitor_commands/parser.rs:57-61 | an address `*0x` whose digits overflow a u64 is rejected |
| MonitorParser.DecOverflowRejected | panda-gdb/src/monitor_commands/parser.rs:62-65 | a decimal address that overflows a u64 is rejected |
| MonitorParser.UpperXReadsZero | panda-gdb/src/monitor_commands/parser.rs:57-66 | `0X` is not the hex prefix: `number` reads the `0` alone |
| MonitorParser.UpperXRejected | panda-gdb/src/monitor_commands/parser.rs:57-66 | so an address written with `0X` is rejected |
| MonitorParser.TrailingInputRejected | panda-gdb/src/monitor_commands/parser.rs:14-49 | a query whose target is followed by any non-empty text that starts with something other than a letter or digit (a blank, `;`, `,`) is rejected |
| Sequencer.WrappingIncrement | panda-il-trace/src/lib.rs:117 | `fetch_add(1)` adds one, and wraps to 0 after 2^64-1 |
| Sequencer.Tracer.constructor | panda-il-trace/src/lib.rs:15-23 | the counter starts at 0 and the queue empty |
| Sequencer.Tracer.EveryBasicBlock | panda-il-trace/src/lib.rs:105-126 | a user-mode block of the traced process whose bytes can be read is queued with the counter's old value, and the counter moves on by one; any other block changes nothing; the counter stays the queue length modulo 2^64 |
| Sequencer.NumberedDistinct | panda-il-trace/src/lib.rs:105-126 | until the counter wraps, the queued sequence numbers are 0, 1, 2, … in push order, with no gaps or duplicates |
| Sequencer.NumberingWraps | panda-il-trace/src/lib.rs:117 | the block after the first 2^64 reuses sequence number 0 |

## Left out

- The falcon lifter and the Capstone decoder (`translate_block`, `blockify`), `stack_pointer()`
  and `panda::reg_ret_addr()` are foreign. Lifting is a parameter `Translator` that returns an
  optional control-flow graph. An IL instruction is reduced to the facts the branch search reads:
  - its address;
  - whether it is a branch, and the branch's target;
  - whether it reads the stack pointer;
  - whether it is a store;
  - whether it writes the link register.
- The architecture is a parameter. Feature gates become a test on it: i386 and x86_64 use the
  stack-pointer rule; ppc, mips and mipsel use the link-register rule.
- The `arm` feature is not modelled. fil/bb.rs:10 and fil/bb.rs:174 gate on it, but
  fil/bb.rs:30-48 declares no arm translator, so an arm build of `BasicBlock` has no lifter.
- Whether an instruction writes the link register is a fact the lifter and
  `panda::reg_ret_addr()` supply. Both il.rs:151 and fil/bb.rs:181 test it only when
  `reg_ret_addr()` returns a register. So `LegacyIl.LinkRegRuleUngated` (an x86 jump after a
  link-register write) describes a reachable difference only if PANDA reports a return-address
  register on x86.
- `Reg::parse` is the parameter `parseReg` of the grammar. Register names come from `regName`.
  The round trip assumes only that these two agree and that names are identifiers.
- I/O is not modelled: `to_callstack_file`, `fmt_callstack` and `ruut::prettify`, the file write
  of `to_branch_json`, serde's pretty-printing whitespace (the compact form is modelled), and
  every `println!`.
- `Display` for `BasicBlock` (fil/bb.rs:261-285 and il.rs:224) and for lib.rs's `BasicBlock`
  depends on `Debug` of byte vectors and on falcon's instruction text.
- lib.rs's worker pool and `SegQueue::pop` loop are concurrency. The queue is a sequence in push
  order, and `every_basic_block` runs one call at a time.
- The PANDA and OSI calls are parameters: `in_kernel`, `get_current_process`, `CStr::to_str`
  (`None` for a name that is not UTF-8) and `virtual_memory_read`.
- panda-gdb's `panda_target.rs`, `lib.rs` and `monitor_commands/mod.rs` are not part of this
  model. They hold register marshalling, debugger threads and the dispatch to the taint library.
- ir_call/src/lib.rs and the Python recording scripts are not part of this model.
- `MonitorParser.Parse` reports failure as `ParseError` with no payload. peg's error position
  and expected-token set are not modelled.
- `BlockList.From`: the panic of the `seq_num` assertion is an `Err` result naming the position.
  Rust's `Vec` is passed by value, so the model copies it into an array, sorts and rewrites
  that array in place, and returns the blocks as values. The shared ownership of lifted graphs
  is not modelled.
- `BlockList.From`: `sort_unstable_by_key` fixes no order among equal sequence numbers. So the
  sorted order is a ghost output, stated only as a sorted permutation. The identity on
  `from`'s own output needs distinct sequence numbers.
- `BlockList.BasicBlockList.ToBranchJson` returns the compact JSON text instead of writing a
  pretty-printed file.
- The `seq_num + 1` of the assertion is computed without overflow. A block numbered 2^64-1 has
  no successor in any recorded trace.
- `seq_num` is `usize` in fil and `u64` in lib.rs. `target_ulong` is `u64`. All are modelled as
  64-bit.
- `FilBlock.Classify`: `DirectJump.taken` is always false, since fil/bb.rs:207-210 does not set
  it. Nothing in the shown code computes whether a jump was taken.
- `MonitorParser.HelpNeedsBlank` states the grammar as written: `help` without a blank after it
  is rejected.
- The MIPS tests of fil/mod.rs:48-49 and il.rs:282 use names that do not exist and are not
  modelled. The other tests' concrete byte strings depend on the lifter. Only their IL-level
  shape is stated, in `LegacyIl.DirectCallAtSix`.
