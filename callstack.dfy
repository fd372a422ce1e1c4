/**
  The call-stack rendering of callstack.rs: the ordered, resolved block list as a Lisp-like
  string. Every call after the first block opens a parenthesis and leaves a `)` pending; a
  return writes the most recent pending `)`; whatever is still pending is written at the end.
*/
module CallStack {
  import opened Numeric
  import opened Wrappers
  import opened Branches
  import opened FilBlock
  import opened BlockList

  // ---------------------------------------------------------------- specification

  /** What one block writes, and how many `)` are pending after it. */
  datatype Step = Step(out: string, pending: nat)

  /**
    One block of the `for` loop: a direct or indirect call at position 0 is written bare; a
    later call is written after `(` and pushes one `)`; a return writes a `)` only when one
    is pending; jumps, sentinels and blocks without a branch write nothing.
  */
  function StepAt(br: Option<Branch>, idx: nat, pending: nat): Step
  {
    match br
    case Some(DirectCall(_, _)) | Some(IndirectCall(_, _, _)) =>
      if idx == 0 then Step(Display(br.value), pending) else Step("(" + Display(br.value), pending + 1)
    case Some(Return(_, _)) =>
      if pending > 0 then Step(")", pending - 1) else Step("", pending)
    case _ => Step("", pending)
  }

  /** `n` closing parentheses: the drain at the end, and the contents of the pending stack. */
  function Closes(n: nat): (s: string)
    ensures |s| == n && forall k :: 0 <= k < n ==> s[k] == ')'
  {
    if n == 0 then "" else Closes(n - 1) + ")"
  }

  /** The output for blocks `i` onwards with `pending` closes pending, the drain included. */
  function Render(vs: seq<BlockValue>, i: nat, pending: nat): string
    decreases |vs| - i
  {
    if i >= |vs| then Closes(pending)
    else
      var st := StepAt(vs[i].branch, i, pending);
      st.out + Render(vs, i + 1, st.pending)
  }

  /** `to_lisp`: `()` for an empty list. */
  function Lisp(vs: seq<BlockValue>): string
  {
    if vs == [] then "()" else Render(vs, 0, 0)
  }

  // ---------------------------------------------------------------- the loop

  /**
    `to_lisp`: the `for` loop over the blocks with the pending `)` kept in the string
    `retStack`, then the `while let` loop that drains it.
  */
  method ToLisp(bl: BasicBlockList) returns (lispStr: string)
    ensures lispStr == Lisp(bl.list)
  {
    var list := bl.list;
    if bl.IsEmpty() {
      return "()";
    }
    lispStr := "";
    var retStack: string := "";
    for idx := 0 to |list|
      invariant retStack == Closes(|retStack|)
      invariant lispStr + Render(list, idx, |retStack|) == Render(list, 0, 0)
    {
      var out;
      ghost var before := |retStack|;
      out, retStack := WriteBlock(list[idx].branch, idx, retStack);
      RenderStep(list, idx, before);
      Regroup(lispStr, out, Render(list, idx + 1, |retStack|));
      lispStr := lispStr + out;
    }
    while |retStack| > 0
      invariant retStack == Closes(|retStack|)
      invariant lispStr + Closes(|retStack|) == Render(list, 0, 0)
    {
      ClosesPop(|retStack|);
      ClosesFront(|retStack|);
      var brace := retStack[|retStack| - 1];
      retStack := retStack[..|retStack| - 1];
      Regroup(lispStr, [brace], Closes(|retStack|));
      lispStr := lispStr + [brace];
    }
  }

  /** The output from block `i` on: block `i`'s own output, then the rest. */
  lemma RenderStep(vs: seq<BlockValue>, i: nat, pending: nat)
    requires i < |vs|
    ensures var st := StepAt(vs[i].branch, i, pending);
      Render(vs, i, pending) == st.out + Render(vs, i + 1, st.pending)
  {
  }

  lemma Regroup(a: string, b: string, c: string)
    ensures a + (b + c) == (a + b) + c
  {
  }

  /** All the pending parentheses are alike, so one may be written from the front. */
  lemma ClosesFront(n: nat)
    requires n > 0
    ensures Closes(n) == ")" + Closes(n - 1)
  {
    assert forall k :: 0 <= k < n ==> Closes(n)[k] == (")" + Closes(n - 1))[k];
  }

  /** Popping the last pending parenthesis leaves one fewer. */
  lemma ClosesPop(n: nat)
    requires n > 0
    ensures Closes(n)[n - 1] == ')' && Closes(n)[..n - 1] == Closes(n - 1)
  {
  }

  /** The body of the `for` loop for one block: what it writes and the pending stack after it. */
  method WriteBlock(br: Option<Branch>, idx: nat, retStack: string) returns (out: string, stack: string)
    requires retStack == Closes(|retStack|)
    ensures out == StepAt(br, idx, |retStack|).out
    ensures |stack| == StepAt(br, idx, |retStack|).pending && stack == Closes(|stack|)
  {
    out, stack := "", retStack;
    match br {
      case Some(DirectCall(_, _)) | Some(IndirectCall(_, _, _)) =>
        if idx == 0 {
          out := Display(br.value);
        } else {
          out := "(" + Display(br.value);
          stack := stack + [')'];
        }
      case Some(Return(_, _)) =>
        if |stack| > 0 {
          ClosesPop(|stack|);
          var brace := stack[|stack| - 1];
          stack := stack[..|stack| - 1];
          out := [brace];
        }
      case _ =>
    }
  }

  // ---------------------------------------------------------------- parentheses

  /** How often `c` occurs in `s`. */
  function Count(s: string, c: char): nat
  {
    if s == [] then 0 else Count(s[..|s| - 1], c) + (if s[|s| - 1] == c then 1 else 0)
  }

  lemma {:induction false} CountAppend(s: string, t: string, c: char)
    ensures Count(s + t, c) == Count(s, c) + Count(t, c)
    decreases |t|
  {
    if t == [] {
      assert s + t == s;
    } else {
      var n := |t| - 1;
      assert (s + t)[..|s + t| - 1] == s + t[..n];
      CountAppend(s, t[..n], c);
    }
  }

  predicate ParenFree(s: string)
  {
    forall k :: 0 <= k < |s| ==> s[k] != '(' && s[k] != ')'
  }

  lemma {:induction false} ParenFreeCount(s: string)
    requires ParenFree(s)
    ensures Count(s, '(') == 0 && Count(s, ')') == 0
  {
    if s != [] {
      ParenFreeCount(s[..|s| - 1]);
    }
  }

  /** Open minus close parentheses. */
  function Depth(s: string): int
  {
    Count(s, '(') as int - Count(s, ')') as int
  }

  /** No prefix closes more than `pending` parentheses beyond those it opens. */
  predicate PrefixesWithin(s: string, pending: nat)
  {
    forall k :: 0 <= k <= |s| ==> Depth(s[..k]) + pending >= 0
  }

  lemma PrefixesAppend(s: string, t: string, pending: nat)
    requires PrefixesWithin(s, pending)
    requires Depth(s) + pending >= 0 && PrefixesWithin(t, Depth(s) + pending)
    ensures PrefixesWithin(s + t, pending)
  {
    forall k | 0 <= k <= |s + t| ensures Depth((s + t)[..k]) + pending >= 0 {
      if k <= |s| {
        assert (s + t)[..k] == s[..k];
      } else {
        assert (s + t)[..k] == s + t[..k - |s|];
        CountAppend(s, t[..k - |s|], '(');
        CountAppend(s, t[..k - |s|], ')');
      }
    }
  }

  /** A paren-free string keeps depth 0 throughout. */
  lemma ParenFreePrefixes(s: string, pending: nat)
    requires ParenFree(s)
    ensures Count(s, '(') == 0 && Count(s, ')') == 0 && PrefixesWithin(s, pending)
  {
    ParenFreeCount(s);
    forall k | 0 <= k <= |s| ensures Depth(s[..k]) + pending >= 0 {
      ParenFreeCount(s[..k]);
    }
  }

  lemma {:induction false} ClosesCount(n: nat)
    ensures Count(Closes(n), '(') == 0 && Count(Closes(n), ')') == n
  {
    if n > 0 {
      ClosesCount(n - 1);
      assert Closes(n)[..n - 1] == Closes(n - 1);
    }
  }

  lemma ClosesPrefixes(n: nat)
    ensures PrefixesWithin(Closes(n), n)
  {
    forall k | 0 <= k <= n ensures Depth(Closes(n)[..k]) + n >= 0 {
      assert Closes(n)[..k] == Closes(k);
      ClosesCount(k);
    }
  }

  /** Register names print inside brackets; they are the only text a call takes from the trace. */
  predicate RegistersParenFree(vs: seq<BlockValue>)
  {
    forall i :: 0 <= i < |vs| && vs[i].branch.Some? && vs[i].branch.value.IndirectCall? ==>
      ParenFree(vs[i].branch.value.regUsed)
  }

  lemma HexParenFree(x: u64)
    ensures ParenFree(Hex16(x))
  {
  }

  lemma ParenFreeConcat(s: string, t: string)
    requires ParenFree(s) && ParenFree(t)
    ensures ParenFree(s + t)
  {
  }

  /** A call's `Display` has no parenthesis unless its register name has one. */
  lemma CallDisplayParenFree(b: Branch)
    requires b.IsCall()
    requires b.IndirectCall? ==> ParenFree(b.regUsed)
    ensures ParenFree(Display(b))
  {
    HexParenFree(b.sitePc);
    HexParenFree(b.dstPc);
    var name := VariantName(b) + "@0x";
    assert ParenFree(name) by {
      if b.DirectCall? {
        assert name == "DirectCall@0x";
      } else {
        assert name == "IndirectCall@0x";
      }
    }
    assert ParenFree(Destination(b)) by {
      assert Destination(b) == " -> 0x" + Hex16(b.dstPc);
      ParenFreeConcat(" -> 0x", Hex16(b.dstPc));
    }
    assert ParenFree(Details(b)) by {
      if b.IndirectCall? {
        ParenFreeConcat(" [", b.regUsed);
        ParenFreeConcat(" [" + b.regUsed, "]");
      }
    }
    ParenFreeConcat(name, Hex16(b.sitePc));
    ParenFreeConcat(name + Hex16(b.sitePc), Destination(b));
    ParenFreeConcat(name + Hex16(b.sitePc) + Destination(b), Details(b));
  }

  /** The calls at positions `i` onwards that open a parenthesis (every call but one at position 0). */
  function OpeningCalls(vs: seq<BlockValue>, i: nat): nat
    decreases |vs| - i
  {
    if i >= |vs| then 0
    else (if i > 0 && vs[i].branch.Some? && vs[i].branch.value.IsCall() then 1 else 0) + OpeningCalls(vs, i + 1)
  }

  /** What one step writes: its effect on the parentheses and on the pending count. */
  lemma StepShape(vs: seq<BlockValue>, i: nat, pending: nat)
    requires i < |vs| && RegistersParenFree(vs)
    ensures var st := StepAt(vs[i].branch, i, pending);
      && Count(st.out, '(') - Count(st.out, ')') == st.pending - pending
      && Count(st.out, '(') == (if i > 0 && vs[i].branch.Some? && vs[i].branch.value.IsCall() then 1 else 0)
      && PrefixesWithin(st.out, pending)
  {
    var br := vs[i].branch;
    var st := StepAt(br, i, pending);
    if br.Some? && br.value.IsCall() {
      CallDisplayParenFree(br.value);
      ParenFreePrefixes(Display(br.value), pending);
      if i > 0 {
        CountAppend("(", Display(br.value), '(');
        CountAppend("(", Display(br.value), ')');
        assert Count("(", '(') == 1 && Count("(", ')') == 0 by {
          assert "("[..0] == "";
        }
        assert PrefixesWithin("(", pending) by {
          assert "("[..0] == "" && "("[..1] == "(";
          assert "("[..0] == "";
        }
        ParenFreePrefixes(Display(br.value), pending + 1);
        PrefixesAppend("(", Display(br.value), pending);
      }
    } else if br.Some? && br.value.Return? && pending > 0 {
      assert Count(")", '(') == 0 && Count(")", ')') == 1 by {
        assert ")"[..0] == "";
      }
      assert PrefixesWithin(")", pending) by {
        assert ")"[..0] == "" && ")"[..1] == ")";
        assert ")"[..0] == "";
      }
    } else {
      assert st.out == "";
      assert PrefixesWithin("", pending) by {
        assert ""[..0] == "";
      }
    }
  }

  /**
    From position `i` on, with `pending` parentheses pending: every opening call writes one
    `(`, every `)` written is matched by a pending one or an earlier `(`, and the drain closes
    all that remain.
  */
  lemma {:induction false} RenderBalanced(vs: seq<BlockValue>, i: nat, pending: nat)
    requires RegistersParenFree(vs)
    ensures Count(Render(vs, i, pending), '(') == OpeningCalls(vs, i)
    ensures Count(Render(vs, i, pending), ')') == OpeningCalls(vs, i) + pending
    ensures PrefixesWithin(Render(vs, i, pending), pending)
    decreases |vs| - i
  {
    if i >= |vs| {
      ClosesCount(pending);
      ClosesPrefixes(pending);
    } else {
      var st := StepAt(vs[i].branch, i, pending);
      var rest := Render(vs, i + 1, st.pending);
      StepShape(vs, i, pending);
      RenderBalanced(vs, i + 1, st.pending);
      CountAppend(st.out, rest, '(');
      CountAppend(st.out, rest, ')');
      PrefixesAppend(st.out, rest, pending);
    }
  }

  /**
    The rendered call stack is balanced when no register name holds a parenthesis: as many
    `)` as `(`, one `(` per call after the first block, and no prefix that closes more than
    it opened.
  */
  lemma LispBalanced(vs: seq<BlockValue>)
    requires RegistersParenFree(vs)
    ensures Count(Lisp(vs), '(') == Count(Lisp(vs), ')')
    ensures vs != [] ==> Count(Lisp(vs), '(') == OpeningCalls(vs, 0)
    ensures forall k :: 0 <= k <= |Lisp(vs)| ==> Count(Lisp(vs)[..k], ')') <= Count(Lisp(vs)[..k], '(')
  {
    if vs == [] {
      assert Count("()", '(') == 1 && Count("()", ')') == 1 by {
        assert "()"[..1] == "(" && "("[..0] == "";
      }
      forall k | 0 <= k <= 2 ensures Count("()"[..k], ')') <= Count("()"[..k], '(') {
        assert "()"[..1] == "(" && "("[..0] == "" && "()"[..0] == "" && "()"[..2] == "()";
      }
    } else {
      RenderBalanced(vs, 0, 0);
    }
  }

  /** Jumps, sentinels, returns with nothing pending and branchless blocks write nothing. */
  lemma SilentBlocks(br: Option<Branch>, idx: nat, pending: nat)
    requires br.None? || !(br.value.IsCall() || br.value.Return?) || (br.value.Return? && pending == 0)
    ensures StepAt(br, idx, pending) == Step("", pending)
  {
  }
}
