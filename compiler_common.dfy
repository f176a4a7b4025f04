/**
  The code generator's shared bookkeeping (`Common.cpp`): merging the
  control-flow state where branches meet, recording it at the blocks a
  branch leaves for, and pushing a deferred action onto the compile-time
  stack so that it adopts its operands.

  The compile-time stack is a list of elements linked into trees: each
  element has a `parent` (the deferred action that consumes it) and a
  `sibling` (the next operand to its left, further down the stack). Stack
  iterators are positions in the list; -1 is the empty iterator.
*/
module CompilerCommon {
  import opened UInt
  import opened CommonTables
  import opened StackElements
  import D = DwarfBytes

  /**
    `mergeControlFlowState`: where two paths meet, only the smaller checked
    frame size is known to be checked on both.
  */
  function MergeControlFlowState(a: ControlFlowState, b: ControlFlowState): (r: ControlFlowState)
    ensures r.checkedStackFrameSize <= a.checkedStackFrameSize && r.checkedStackFrameSize <= b.checkedStackFrameSize
    ensures r == a || r == b
  {
    ControlFlowState(if a.checkedStackFrameSize < b.checkedStackFrameSize then a.checkedStackFrameSize
                     else b.checkedStackFrameSize)
  }

  /** Merging is commutative, associative and idempotent, and a new block's end state is its identity. */
  lemma {:induction false} MergeLaws(a: ControlFlowState, b: ControlFlowState, c: ControlFlowState)
    ensures MergeControlFlowState(a, b) == MergeControlFlowState(b, a)
    ensures MergeControlFlowState(MergeControlFlowState(a, b), c) == MergeControlFlowState(a, MergeControlFlowState(b, c))
    ensures MergeControlFlowState(a, a) == a
    ensures MergeControlFlowState(UNCHECKED_END, a) == a
  {
  }

  /** A block made by a factory leaves any state it is merged with unchanged. */
  lemma {:induction false} FreshBlockNeutral(kind: BlockKind, pos: u32, offset: u32, prev: int, sig: u32, entry: u32,
                                             unreachable: bool, s: ControlFlowState)
    ensures MergeControlFlowState(MakeBlock(kind, pos, offset, prev, sig, entry, unreachable).info.endState, s) == s
  {
    MergeLaws(s, s, s);
  }

  /** The element `k` links below `start` (k = 0 is `start` itself); -1 once the chain ends. */
  function ChainAt(sibling: seq<int>, start: int, k: nat): int {
    if k == 0 then start
    else
      var prev := ChainAt(sibling, start, k - 1);
      if 0 <= prev < |sibling| then sibling[prev] else -1
  }

  /** The first n elements of the sibling chain from `start`. */
  function Operands(sibling: seq<int>, start: int, n: nat): set<int> {
    set j: nat | j < n :: ChainAt(sibling, start, j)
  }

  /** Sibling links point strictly down the stack. */
  predicate LinksDown(sibling: seq<int>) {
    forall i | 0 <= i < |sibling| :: -1 <= sibling[i] < i
  }

  /** Along downward links, a later chain element lies strictly below an earlier one. */
  lemma {:induction false} ChainDescends(sibling: seq<int>, start: int, j: nat, k: nat)
    requires LinksDown(sibling) && -1 <= start < |sibling|
    requires j < k && ChainAt(sibling, start, k) >= 0
    ensures ChainAt(sibling, start, k) < ChainAt(sibling, start, j)
    decreases k
  {
    ChainBelow(sibling, start, k - 1);
    if j < k - 1 {
      ChainDescends(sibling, start, j, k - 1);
    }
  }

  /** Every chain element is below the stack top or -1. */
  lemma {:induction false} ChainBelow(sibling: seq<int>, start: int, k: nat)
    requires LinksDown(sibling) && -1 <= start < |sibling|
    ensures -1 <= ChainAt(sibling, start, k) < |sibling|
  {
    if k > 0 {
      ChainBelow(sibling, start, k - 1);
    }
  }

  /** An opcode a deferred action can carry: select, a load or an arithmetic opcode. */
  predicate IsActionOpcode(op: u32) {
    op == SELECT || IsLoad(op) || IsArith(op)
  }

  class CompilerState {
    var stack: seq<StackElement>
    var parent: seq<int>
    var sibling: seq<int>
    var currentState: ControlFlowState
    var hasPendingSideEffectInstructions: bool

    /** Links have one entry per element; siblings lie below and parents above their element. */
    ghost predicate Valid()
      reads this
    {
      && |parent| == |stack| && |sibling| == |stack|
      && LinksDown(sibling)
      && ParentsAbove(parent, |stack|)
    }

    /**
      `emitBranchMergePoint`: after a block ends, the current state is the
      merge of the fall-through state and the block's end state when the
      end is reachable, and the block's end state alone when it is not.
    */
    method EmitBranchMergePoint(isReachable: bool, finishedBlock: D.Option<BlockInfo>)
      modifies this
      ensures finishedBlock.None? ==> currentState == old(currentState)
      ensures finishedBlock.Some? && isReachable ==>
        currentState == MergeControlFlowState(old(currentState), finishedBlock.value.endState)
      ensures finishedBlock.Some? && !isReachable ==> currentState == finishedBlock.value.endState
      ensures stack == old(stack) && parent == old(parent) && sibling == old(sibling)
      ensures hasPendingSideEffectInstructions == old(hasPendingSideEffectInstructions)
    {
      if finishedBlock.Some? {
        if isReachable {
          currentState := MergeControlFlowState(currentState, finishedBlock.value.endState);
        } else {
          currentState := finishedBlock.value.endState;
        }
      }
    }

    /** Whether a branch from the current position updates the end state of `target`. */
    static predicate MergesInto(isReachable: bool, stack: seq<StackElement>, target: int) {
      isReachable && 0 <= target < |stack| && stack[target].Structural? && stack[target].kind != LOOP
    }

    /**
      `mergeStateAtBranchDivergePoint`: a reachable branch to a block or
      if-block merges the current state into the block's end state; a
      branch to a loop goes to its start, and an empty target is ignored.
    */
    method MergeStateAtBranchDivergePoint(isReachable: bool, target: int)
      modifies this
      ensures MergesInto(isReachable, old(stack), target) ==>
        stack == old(stack)[target := old(stack)[target].(info := old(stack)[target].info.(endState :=
          MergeControlFlowState(old(stack)[target].info.endState, old(currentState))))]
      ensures !MergesInto(isReachable, old(stack), target) ==> stack == old(stack)
      ensures parent == old(parent) && sibling == old(sibling) && currentState == old(currentState)
      ensures hasPendingSideEffectInstructions == old(hasPendingSideEffectInstructions)
    {
      if MergesInto(isReachable, stack, target) {
        var info := stack[target].info;
        stack := stack[target := stack[target].(info := info.(endState := MergeControlFlowState(info.endState, currentState)))];
      }
    }

    /**
      `emitBranchDivergePoint` for a branch table: the state is merged into
      every target in turn. A target listed twice is merged once in effect,
      since merging is idempotent.
    */
    method EmitBranchDivergePoints(isReachable: bool, targets: seq<int>)
      modifies this
      ensures |stack| == |old(stack)|
      ensures forall k | 0 <= k < |stack| ::
        stack[k] == if k in targets && MergesInto(isReachable, old(stack), k)
                    then old(stack)[k].(info := old(stack)[k].info.(endState :=
                           MergeControlFlowState(old(stack)[k].info.endState, old(currentState))))
                    else old(stack)[k]
      ensures parent == old(parent) && sibling == old(sibling) && currentState == old(currentState)
      ensures hasPendingSideEffectInstructions == old(hasPendingSideEffectInstructions)
    {
      var i := 0;
      while i < |targets|
        invariant 0 <= i <= |targets| && |stack| == |old(stack)|
        invariant forall k | 0 <= k < |stack| ::
          stack[k] == if k in targets[..i] && MergesInto(isReachable, old(stack), k)
                      then old(stack)[k].(info := old(stack)[k].info.(endState :=
                             MergeControlFlowState(old(stack)[k].info.endState, old(currentState))))
                      else old(stack)[k]
        invariant parent == old(parent) && sibling == old(sibling) && currentState == old(currentState)
        invariant hasPendingSideEffectInstructions == old(hasPendingSideEffectInstructions)
      {
        MergeStateAtBranchDivergePoint(isReachable, targets[i]);
        forall k | 0 <= k < |stack|
          ensures k in targets[..i + 1] <==> k in targets[..i] || k == targets[i]
        {
          assert targets[..i + 1] == targets[..i] + [targets[i]];
        }
        i := i + 1;
      }
      assert targets[..i] == targets;
    }
  
    /**
      `pushDeferredAction`: pushes the action and makes it the parent of its
      `arity` operands, the top element and those its sibling chain reaches.
      The action takes over the deepest operand's sibling, so it stands in
      the chain where its operands stood, and the operands' chain now ends
      at the deepest one. A side effect makes the pending flag set for good.
    */
    method PushDeferredAction(action: StackElement) returns (instructionIt: nat)
      requires Valid() && action.DeferredAction? && IsActionOpcode(action.opcode)
      requires |stack| > 0
      requires ChainAt(sibling, |sibling| - 1, GetArithArity(action.opcode) - 1) >= 0
      modifies this
      ensures Valid()
      ensures instructionIt == old(|stack|) && stack == old(stack) + [action]
      ensures hasPendingSideEffectInstructions == (old(hasPendingSideEffectInstructions) || action.sideEffect != 0)
      ensures forall k | 0 <= k < old(|stack|) ::
        parent[k] == if k in Operands(old(sibling), |old(sibling)| - 1, GetArithArity(action.opcode))
                     then instructionIt else old(parent)[k]
      ensures parent[instructionIt] == -1
      ensures ChainAt(sibling, instructionIt, 1) == ChainAt(old(sibling), |old(sibling)| - 1, GetArithArity(action.opcode))
      ensures SamePrefix(sibling, old(sibling), |old(sibling)| - 1, GetArithArity(action.opcode))
      ensures ChainAt(sibling, |old(sibling)| - 1, GetArithArity(action.opcode)) == -1
      ensures var paramEnd := ChainAt(old(sibling), |old(sibling)| - 1, GetArithArity(action.opcode) - 1);
              && sibling[paramEnd] == -1 && sibling[instructionIt] == old(sibling)[paramEnd]
              && forall k | 0 <= k < old(|stack|) && k != paramEnd :: sibling[k] == old(sibling)[k]
      ensures currentState == old(currentState)
    {
      var arity := GetArithArity(action.opcode);
      instructionIt := |stack|;
      var newParent, newSibling := AdoptOperands(parent, sibling, arity);
      hasPendingSideEffectInstructions := hasPendingSideEffectInstructions || action.sideEffect != 0;
      stack := stack + [action];
      parent := newParent;
      sibling := newSibling;
    }
  }

  /**
    The link updates of `pushDeferredAction` on the parent and sibling
    lists: every element of the operand chain from the top gets the new
    element as parent, the new element takes the deepest operand's sibling,
    and the deepest operand's sibling link is cut.
  */
  method AdoptOperands(parent: seq<int>, sibling: seq<int>, arity: nat) returns (newParent: seq<int>, newSibling: seq<int>)
    requires |parent| == |sibling| && LinksDown(sibling) && ParentsAbove(parent, |sibling|)
    requires arity >= 1 && |sibling| > 0 && ChainAt(sibling, |sibling| - 1, arity - 1) >= 0
    ensures |newParent| == |newSibling| == |sibling| + 1
    ensures LinksDown(newSibling) && ParentsAbove(newParent, |sibling| + 1)
    ensures forall k | 0 <= k < |sibling| ::
      newParent[k] == if k in Operands(sibling, |sibling| - 1, arity) then |sibling| else parent[k]
    ensures newParent[|sibling|] == -1
    ensures ChainAt(newSibling, |sibling|, 1) == ChainAt(sibling, |sibling| - 1, arity)
    ensures SamePrefix(newSibling, sibling, |sibling| - 1, arity)
    ensures ChainAt(newSibling, |sibling| - 1, arity) == -1
    // only the deepest operand's sibling link changes: it is cut, and the new element takes it over
    ensures var paramEnd := ChainAt(sibling, |sibling| - 1, arity - 1);
            && newSibling[paramEnd] == -1 && newSibling[|sibling|] == sibling[paramEnd]
            && forall k | 0 <= k < |sibling| && k != paramEnd :: newSibling[k] == sibling[k]
  {
    var instructionIt := |sibling|;
    var paramStart := instructionIt - 1;
    var links := parent + [-1];
    var currentIt := paramStart;
    var i := 0;
    while i < arity - 1
      invariant 0 <= i <= arity - 1
      invariant currentIt == ChainAt(sibling, paramStart, i)
      invariant 0 <= currentIt < instructionIt
      invariant |links| == instructionIt + 1
      invariant forall k | 0 <= k < instructionIt ::
        links[k] == if k in Operands(sibling, paramStart, i) then instructionIt else parent[k]
    {
      ChainBelow(sibling, paramStart, i + 1);
      assert ChainAt(sibling, paramStart, i + 1) >= 0 by {
        if ChainAt(sibling, paramStart, i + 1) < 0 {
          ChainEnded(sibling, paramStart, i + 1, arity - 1);
        }
      }
      OperandsStep(sibling, paramStart, i);
      links := links[currentIt := instructionIt];
      currentIt := sibling[currentIt];
      i := i + 1;
    }
    var paramEnd := currentIt;
    newSibling := (sibling + [-1])[instructionIt := sibling[paramEnd]][paramEnd := -1];
    newParent := links[paramEnd := instructionIt][instructionIt := -1];
    PushLinks(parent, sibling, arity, links, newParent, newSibling);
  }

  /** Parents lie above their element, within the n elements. */
  predicate ParentsAbove(parent: seq<int>, n: int) {
    forall i | 0 <= i < |parent| :: parent[i] == -1 || i < parent[i] < n
  }

  /**
    The links `pushDeferredAction` leaves: from the links before the push,
    the parents after the loop over all but the deepest operand, and the
    final updates.
  */
  lemma {:induction false} PushLinks(parent0: seq<int>, sib0: seq<int>, arity: nat,
                                     parentL: seq<int>, parentF: seq<int>, sibF: seq<int>)
    requires |parent0| == |sib0| && LinksDown(sib0) && ParentsAbove(parent0, |sib0|)
    requires arity >= 1 && |sib0| > 0 && ChainAt(sib0, |sib0| - 1, arity - 1) >= 0
    requires |parentL| == |sib0| + 1
    requires forall k | 0 <= k < |sib0| ::
      parentL[k] == if k in Operands(sib0, |sib0| - 1, arity - 1) then |sib0| else parent0[k]
    requires parentF == parentL[ChainAt(sib0, |sib0| - 1, arity - 1) := |sib0|][|sib0| := -1]
    requires sibF == (sib0 + [-1])[|sib0| := sib0[ChainAt(sib0, |sib0| - 1, arity - 1)]]
                                   [ChainAt(sib0, |sib0| - 1, arity - 1) := -1]
    ensures |parentF| == |sibF| == |sib0| + 1
    ensures LinksDown(sibF) && ParentsAbove(parentF, |sib0| + 1)
    ensures forall k | 0 <= k < |sib0| ::
      parentF[k] == if k in Operands(sib0, |sib0| - 1, arity) then |sib0| else parent0[k]
    ensures parentF[|sib0|] == -1
    ensures ChainAt(sibF, |sib0|, 1) == ChainAt(sib0, |sib0| - 1, arity)
    ensures SamePrefix(sibF, sib0, |sib0| - 1, arity)
    ensures ChainAt(sibF, |sib0| - 1, arity) == -1
    ensures var pe := ChainAt(sib0, |sib0| - 1, arity - 1);
            && sibF[pe] == -1 && sibF[|sib0|] == sib0[pe]
            && forall k | 0 <= k < |sib0| && k != pe :: sibF[k] == sib0[k]
  {
    var n := |sib0|;
    var pe := ChainAt(sib0, n - 1, arity - 1);
    ChainBelow(sib0, n - 1, arity - 1);
    OperandsStep(sib0, n - 1, arity - 1);
    SpliceLinksDown(sib0, pe, sibF);
    AdoptedParents(parent0, Operands(sib0, n - 1, arity - 1), pe, parentL, parentF);
    CutChain(sib0, sibF, n - 1, arity);
  }

  /** The new top element taking over the sibling of `pe`, whose link is cut, keeps links downward. */
  lemma {:induction false} SpliceLinksDown(sib0: seq<int>, pe: nat, sibF: seq<int>)
    requires LinksDown(sib0) && pe < |sib0|
    requires sibF == (sib0 + [-1])[|sib0| := sib0[pe]][pe := -1]
    ensures LinksDown(sibF)
  {
    forall i | 0 <= i < |sibF| ensures -1 <= sibF[i] < i {
      if i == |sib0| {
        assert sibF[i] == sib0[pe];
      }
    }
  }

  /** The operands in `ops` and `pe` get the new top element as parent, which stays above them. */
  lemma {:induction false} AdoptedParents(parent0: seq<int>, ops: set<int>, pe: nat, parentL: seq<int>, parentF: seq<int>)
    requires ParentsAbove(parent0, |parent0|) && pe < |parent0| && |parentL| == |parent0| + 1
    requires forall k | 0 <= k < |parent0| :: parentL[k] == if k in ops then |parent0| else parent0[k]
    requires parentF == parentL[pe := |parent0|][|parent0| := -1]
    ensures ParentsAbove(parentF, |parent0| + 1)
    ensures forall k | 0 <= k < |parent0| :: parentF[k] == if k in ops + {pe} then |parent0| else parent0[k]
    ensures parentF[|parent0|] == -1
  {
    var n := |parent0|;
    forall i | 0 <= i < |parentF| ensures parentF[i] == -1 || i < parentF[i] < n + 1 {
      if i < n && parentF[i] != n {
        assert parentF[i] == parent0[i];
      }
    }
  }

  /** The first n elements of the chains from `start` agree. */
  predicate SamePrefix(sib1: seq<int>, sib0: seq<int>, start: int, n: nat) {
    forall j: nat | j < n :: ChainAt(sib1, start, j) == ChainAt(sib0, start, j)
  }

  /** Once the chain has ended it stays ended. */
  lemma {:induction false} ChainEnded(sibling: seq<int>, start: int, j: nat, k: nat)
    requires j <= k && ChainAt(sibling, start, j) < 0
    ensures ChainAt(sibling, start, k) == -1 || (k == j && ChainAt(sibling, start, k) < 0)
    decreases k
  {
    if k > j {
      ChainEnded(sibling, start, j, k - 1);
    }
  }

  lemma {:induction false} OperandsStep(sibling: seq<int>, start: int, n: nat)
    ensures Operands(sibling, start, n + 1) == Operands(sibling, start, n) + {ChainAt(sibling, start, n)}
  {
    var a := Operands(sibling, start, n + 1);
    var b := Operands(sibling, start, n) + {ChainAt(sibling, start, n)};
    forall x | x in a ensures x in b {
      var j: nat :| j < n + 1 && x == ChainAt(sibling, start, j);
    }
    forall x | x in b ensures x in a {
      if x != ChainAt(sibling, start, n) {
        var j: nat :| j < n && x == ChainAt(sibling, start, j);
      }
    }
  }

  /**
    Cutting the link below the n-th chain element (and adding an element
    above) keeps the first n elements of the chain and ends it there.
  */
  lemma {:induction false} CutChain(sib0: seq<int>, sib1: seq<int>, start: int, n: nat)
    requires LinksDown(sib0) && 0 <= start < |sib0| && n >= 1
    requires ChainAt(sib0, start, n - 1) >= 0
    requires |sib1| == |sib0| + 1
    requires forall i | 0 <= i < |sib0| && i != ChainAt(sib0, start, n - 1) :: sib1[i] == sib0[i]
    requires sib1[ChainAt(sib0, start, n - 1)] == -1
    ensures SamePrefix(sib1, sib0, start, n)
    ensures ChainAt(sib1, start, n) == -1
  {
    forall j: nat | j < n ensures ChainAt(sib1, start, j) == ChainAt(sib0, start, j) {
      CutChainPrefix(sib0, sib1, start, n, j);
    }
    CutChainPrefix(sib0, sib1, start, n, n - 1);
    ChainBelow(sib0, start, n - 1);
  }

  lemma {:induction false} CutChainPrefix(sib0: seq<int>, sib1: seq<int>, start: int, n: nat, j: nat)
    requires LinksDown(sib0) && 0 <= start < |sib0| && j < n
    requires ChainAt(sib0, start, n - 1) >= 0
    requires |sib1| == |sib0| + 1
    requires forall i | 0 <= i < |sib0| && i != ChainAt(sib0, start, n - 1) :: sib1[i] == sib0[i]
    ensures ChainAt(sib1, start, j) == ChainAt(sib0, start, j)
  {
    if j > 0 {
      CutChainPrefix(sib0, sib1, start, n, j - 1);
      var prev := ChainAt(sib0, start, j - 1);
      ChainBelow(sib0, start, j - 1);
      if prev >= 0 {
        ChainDescends(sib0, start, j - 1, n - 1);
      }
    }
  }
}
