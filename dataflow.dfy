/** The analysis run over straight-line code and two-way merges.

    A block's statements are folded through the transfer rule from the
    element at its entry; a block with several predecessors starts from the
    join of their exit elements. This reproduces the annotated test programs,
    where each label names the element after the statement it follows.
 */
module StraightLineDataflow {
  import opened ConstantPropagationLattice
  import opened ConstantPropagationAnalysis

  /** True when no statement of `stmts` is matched by the rule. */
  predicate NoneMatched(stmts: seq<StmtKind>) {
    forall i :: 0 <= i < |stmts| ==> stmts[i].Other?
  }

  /** The element after running the transfer rule over `stmts`, in order,
      from `entry`. */
  function TransferBlock(stmts: seq<StmtKind>, entry: LatticeValue): (exit: LatticeValue)
    ensures NoneMatched(stmts) ==> exit == entry
    ensures WellFormed(entry) ==> WellFormed(exit)
    decreases |stmts|
  {
    if stmts == [] then entry
    else TransferBlock(stmts[1..], TransferValue(stmts[0], entry))
  }

  /** The element after each statement of `stmts`: what a label placed
      after that statement observes. */
  function StatesAfter(stmts: seq<StmtKind>, entry: LatticeValue): (states: seq<LatticeValue>)
    ensures |states| == |stmts|
    ensures forall i :: 0 <= i < |stmts| && stmts[i].Other? ==>
              states[i] == (if i == 0 then entry else states[i - 1])
    decreases |stmts|
  {
    if stmts == [] then []
    else
      var next := TransferValue(stmts[0], entry);
      [next] + StatesAfter(stmts[1..], next)
  }

  /** The entry element of a block: the join of its predecessors' exit
      elements, in order, starting from the initial element. */
  function JoinAll(preds: seq<LatticeValue>): (r: LatticeValue)
    ensures forall i :: 0 <= i < |preds| ==> Leq(preds[i], r)
    ensures (forall i :: 0 <= i < |preds| ==> WellFormed(preds[i])) ==> WellFormed(r)
    decreases |preds|
  {
    if preds == [] then InitialElement()
    else
      var init := preds[..|preds| - 1];
      assert forall i :: 0 <= i < |init| ==> init[i] == preds[i];
      JoinValues(JoinAll(init), preds[|preds| - 1])
  }

  // ---------------------------------------------------------------------
  // The fold

  /** Running two pieces of code one after the other is running their
      concatenation. */
  lemma {:induction false} TransferBlockAppend(xs: seq<StmtKind>, ys: seq<StmtKind>, entry: LatticeValue)
    ensures TransferBlock(xs + ys, entry) == TransferBlock(ys, TransferBlock(xs, entry))
    decreases |xs|
  {
    if xs == [] {
      assert xs + ys == ys;
    } else {
      assert (xs + ys)[0] == xs[0] && (xs + ys)[1..] == xs[1..] + ys;
      TransferBlockAppend(xs[1..], ys, TransferValue(xs[0], entry));
    }
  }

  /** The label after statement `i` sees the fold over the statements up to
      and including `i`. */
  lemma {:induction false} StatesAfterIsPrefixFold(stmts: seq<StmtKind>, entry: LatticeValue, i: nat)
    requires i < |stmts|
    ensures StatesAfter(stmts, entry)[i] == TransferBlock(stmts[..i + 1], entry)
    decreases i
  {
    var next := TransferValue(stmts[0], entry);
    if i == 0 {
      assert stmts[..1][1..] == [];
    } else {
      StatesAfterIsPrefixFold(stmts[1..], next, i - 1);
      assert stmts[1..][..i] == stmts[..i + 1][1..];
    }
  }

  /** Only the last statement the rule matches decides the block's exit
      element: the element at entry and every earlier statement are
      forgotten, so the variable tracked is the one most recently declared or
      assigned, with the constant stored there, or the exit is top. */
  lemma {:induction false} LastWriteDecides(stmts: seq<StmtKind>, k: nat, entry: LatticeValue)
    requires k < |stmts| && !stmts[k].Other?
    requires NoneMatched(stmts[k + 1..])
    ensures TransferBlock(stmts, entry) == TransferValue(stmts[k], Bottom())
    ensures TransferBlock(stmts, entry) == Top() ||
              (StoredConstant(stmts[k]).Some? &&
               TransferBlock(stmts, entry) == Known(stmts[k].Var, StoredConstant(stmts[k]).value))
  {
    var before := TransferBlock(stmts[..k], entry);
    assert stmts == stmts[..k] + ([stmts[k]] + stmts[k + 1..]);
    TransferBlockAppend(stmts[..k], [stmts[k]] + stmts[k + 1..], entry);
    TransferBlockAppend([stmts[k]], stmts[k + 1..], before);
    assert TransferBlock([stmts[k]], before) == TransferValue(stmts[k], before);
    WriteOverwrites(stmts[k], before, Bottom());
  }

  /** Running a block is monotone in its entry element. */
  lemma {:induction false} TransferBlockMonotone(stmts: seq<StmtKind>, a: LatticeValue, b: LatticeValue)
    requires Leq(a, b)
    ensures Leq(TransferBlock(stmts, a), TransferBlock(stmts, b))
    decreases |stmts|
  {
    if stmts != [] {
      TransferMonotone(stmts[0], a, b);
      TransferBlockMonotone(stmts[1..], TransferValue(stmts[0], a), TransferValue(stmts[0], b));
    }
  }

  // ---------------------------------------------------------------------
  // The merge

  /** The merged element is below every common upper bound of the
      predecessors: it is their least upper bound. */
  lemma {:induction false} JoinAllIsLeast(preds: seq<LatticeValue>, c: LatticeValue)
    requires forall i :: 0 <= i < |preds| ==> Leq(preds[i], c)
    ensures Leq(JoinAll(preds), c)
    decreases |preds|
  {
    if preds != [] {
      var init := preds[..|preds| - 1];
      assert forall i :: 0 <= i < |init| ==> init[i] == preds[i];
      JoinAllIsLeast(init, c);
      JoinIsLeast(JoinAll(init), preds[|preds| - 1], c);
    }
  }

  /** The order in which predecessors are joined does not matter. */
  lemma JoinAllOrderIndependent(p: seq<LatticeValue>, q: seq<LatticeValue>)
    requires multiset(p) == multiset(q)
    ensures JoinAll(p) == JoinAll(q)
  {
    forall i | 0 <= i < |q| ensures Leq(q[i], JoinAll(p)) {
      assert q[i] in multiset(q);
      var j :| 0 <= j < |p| && p[j] == q[i];
    }
    forall i | 0 <= i < |p| ensures Leq(p[i], JoinAll(q)) {
      assert p[i] in multiset(p);
      var j :| 0 <= j < |q| && q[j] == p[i];
    }
    JoinAllIsLeast(q, JoinAll(p));
    JoinAllIsLeast(p, JoinAll(q));
    LeqPartialOrder(JoinAll(p), JoinAll(q), JoinAll(p));
  }

  /** Two predecessors that agree give their common element; two that hold
      different constants give top. */
  lemma TwoWayMerge(a: LatticeValue, b: LatticeValue)
    ensures a == b ==> JoinAll([a, b]) == a
    ensures a != b && a != Bottom() && b != Bottom() ==> JoinAll([a, b]) == Top()
  {
    assert [a, b][..1] == [a];
    assert [a][..0] == [];
    assert JoinAll([a]) == a;
  }

  // ---------------------------------------------------------------------
  // The annotated test programs

  /** `int target = 1;` then label p. */
  lemma JustInit(target: VarDecl)
    ensures StatesAfter([DeclInit(target, Some(1))], InitialElement()) == [Known(target, 1)]
  {
  }

  /** A new declaration replaces the tracked variable, and an assignment
      takes it back. */
  lemma TwoVariables(target: VarDecl, other: VarDecl)
    ensures StatesAfter([DeclInit(target, Some(1)), DeclInit(other, Some(2)), PlainAssign(target, Some(3))],
                        InitialElement())
            == [Known(target, 1), Known(other, 2), Known(target, 3)]
  {
    assert StatesAfter([DeclInit(other, Some(2)), PlainAssign(target, Some(3))], Known(target, 1))
           == [Known(other, 2), Known(target, 3)];
  }

  lemma Assignment(target: VarDecl)
    ensures StatesAfter([DeclInit(target, Some(1)), PlainAssign(target, Some(2))], InitialElement())
            == [Known(target, 1), Known(target, 2)]
  {
  }

  /** `int target; target = g();`: the call has no constant value. */
  lemma AssignmentCall(target: VarDecl)
    ensures TransferBlock([Other, PlainAssign(target, None)], InitialElement()) == Top()
  {
  }

  /** `int target; target = 2 + 3;`: the right-hand side evaluates to 5. */
  lemma AssignmentBinOp(target: VarDecl)
    ensures TransferBlock([Other, PlainAssign(target, Some(5))], InitialElement()) == Known(target, 5)
  {
  }

  /** `target += 2` gives top even though the value 3 is known. */
  lemma PlusAssignment(target: VarDecl)
    ensures StatesAfter([DeclInit(target, Some(1)), CompoundAssign(target)], InitialElement())
            == [Known(target, 1), Top()]
  {
  }

  /** `int target;` (p1), then `target = 2` on both arms (pT, pF), merged (p2). */
  lemma SameAssignmentInBranches(target: VarDecl)
    ensures var p1 := TransferBlock([Other], InitialElement());
            var pT := TransferBlock([PlainAssign(target, Some(2))], p1);
            var pF := TransferBlock([PlainAssign(target, Some(2))], p1);
            var p2 := TransferBlock([Other], JoinAll([pT, pF]));
            p1 == Bottom() && pT == Known(target, 2) && pF == Known(target, 2) && p2 == Known(target, 2)
  {
    TwoWayMerge(Known(target, 2), Known(target, 2));
  }

  /** `int target = 1;` (p1), `target = 1` on one arm only, merged (p2). */
  lemma SameAssignmentInBranch(target: VarDecl)
    ensures var p1 := TransferBlock([DeclInit(target, Some(1))], InitialElement());
            var thenExit := TransferBlock([PlainAssign(target, Some(1))], p1);
            var p2 := TransferBlock([Other], JoinAll([thenExit, p1]));
            p1 == Known(target, 1) && p2 == Known(target, 1)
  {
    TwoWayMerge(Known(target, 1), Known(target, 1));
  }

  /** Each arm declares its own `target`; nothing is merged. */
  lemma NewVarInBranch(thenTarget: VarDecl, elseTarget: VarDecl)
    ensures StatesAfter([Other, PlainAssign(thenTarget, Some(1))], InitialElement())
            == [Bottom(), Known(thenTarget, 1)]
    ensures StatesAfter([Other, PlainAssign(elseTarget, Some(1))], InitialElement())
            == [Bottom(), Known(elseTarget, 1)]
  {
  }

  /** `int target;` (p1), `target = 1` (pT) or `target = 2` (pF), merged (p2). */
  lemma DifferentAssignmentInBranches(target: VarDecl)
    ensures var p1 := TransferBlock([Other], InitialElement());
            var pT := TransferBlock([PlainAssign(target, Some(1))], p1);
            var pF := TransferBlock([PlainAssign(target, Some(2))], p1);
            var p2 := TransferBlock([Other], JoinAll([pT, pF]));
            p1 == Bottom() && pT == Known(target, 1) && pF == Known(target, 2) && p2 == Top()
  {
    TwoWayMerge(Known(target, 1), Known(target, 2));
  }

  /** `int target = 1;` (p1), `target = 3` on one arm only, merged (p2). */
  lemma DifferentAssignmentInBranch(target: VarDecl)
    ensures var p1 := TransferBlock([DeclInit(target, Some(1))], InitialElement());
            var thenExit := TransferBlock([PlainAssign(target, Some(3))], p1);
            var p2 := TransferBlock([Other], JoinAll([thenExit, p1]));
            p1 == Known(target, 1) && p2 == Top()
  {
    TwoWayMerge(Known(target, 3), Known(target, 1));
  }
}
