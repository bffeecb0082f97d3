# Single-variable constant propagation, modelled in Dafny

This project models the reference client of Clang's flow-sensitive dataflow
framework. The client is a constant propagation that tracks one integer
variable at a time: the one most recently declared or assigned. It has two
parts.

- **The lattice** (`lattice.dfy`, module `ConstantPropagationLattice`). An
  element is an optional `VarValue` pair of a variable and a signed 64-bit
  value. The absent value is bottom. The pair whose variable is null and whose
  value is 0 is top. Any other pair means the variable holds that value on
  every path. `VarDecl` is a class, so `VarDecl?` is a pointer that may be
  null, and top is encoded exactly as the sentinel `{nullptr, 0}`. The C++
  `join` overwrites its receiver and returns `Changed` or `Unchanged`. It is
  the method `ConstantPropagationLattice.Join`, specified by the pure function
  `JoinValues`. Its laws are stated against an order `Leq` that is defined
  separately: bottom is below everything, top is above everything, and two
  pairs are related only when equal.
- **The transfer rule** (`analysis.dfy`, module
  `ConstantPropagationAnalysis`). The AST matcher and `EvaluateAsInt` are
  replaced by their outcome, a `StmtKind`:
  - `DeclInit(var, constant?)`: an integer variable declared with an
    initializer;
  - `PlainAssign(var, constant?)`: a plain `=` to a variable;
  - `CompoundAssign(var)`: any other assignment operator on a variable;
  - `Other`: no match.

  The matcher tries the cases in that order. The bound variable is a non-null
  `VarDecl`, since the matcher always binds it. `Transfer` updates the element
  in place. `TransferValue` is the function that specifies it.

`dataflow.dfy` (module `StraightLineDataflow`) runs the rule over
straight-line code. `TransferBlock` folds the rule over a list of statements.
`StatesAfter` gives the element each label sees. `JoinAll` merges the exit
elements of a block's predecessors, starting from the initial element. With
these, the test programs of the source file are restated as lemmas. Each
`// [[label]]` comment observes the element after the statement it follows.
Sub-expressions that the framework also visits, such as the literal `1` or the
reference `target`, match nothing and are classified `Other`.

## Model

| member | source | states |
|---|---|---|
| `ConstantPropagationLattice.SameVarValue` | clang/unittests/Analysis/FlowSensitive/SingleVarConstantPropagationTest.cpp:59-61 | field-wise comparison of two pairs holds exactly when the pairs are equal |
| `ConstantPropagationLattice.SentinelsDistinct` | clang/unittests/Analysis/FlowSensitive/SingleVarConstantPropagationTest.cpp:63-69 | bottom (`None`), top (the null-variable sentinel) and pairs naming a real variable are distinct, each well formed, at heights 0, 2 and 1 |
| `ConstantPropagationLattice.JoinValues` | clang/unittests/Analysis/FlowSensitive/SingleVarConstantPropagationTest.cpp:76-87 | the join is an upper bound of both operands under the separately defined flat order, and is one of the two operands or top |
| `ConstantPropagationLattice.ConstantPropagationLattice.Join` | clang/unittests/Analysis/FlowSensitive/SingleVarConstantPropagationTest.cpp:76-87 | the receiver becomes the join of its old value and `other`'s (also when `other` is the receiver itself); `Unchanged` exactly when receiver equals other, other is bottom, or receiver is top; `Changed` exactly when the receiver's value differs from before |
| `ConstantPropagationLattice.JoinUnchangedIff` | clang/unittests/Analysis/FlowSensitive/SingleVarConstantPropagationTest.cpp:76-78 | the join keeps the receiver's value if and only if the receiver equals other, other is bottom, or the receiver is top |
| `ConstantPropagationLattice.JoinChangedCases` | clang/unittests/Analysis/FlowSensitive/SingleVarConstantPropagationTest.cpp:80-86 | joining a non-bottom value into bottom gives that value; joining two distinct pairs, neither top, gives top |
| `ConstantPropagationLattice.BottomIdentityTopAbsorbing` | clang/unittests/Analysis/FlowSensitive/SingleVarConstantPropagationTest.cpp:66-87 | bottom is a two-sided identity of the join and top is two-sided absorbing |
| `ConstantPropagationLattice.JoinIdempotent` | clang/unittests/Analysis/FlowSensitive/SingleVarConstantPropagationTest.cpp:47-49 | joining an element with itself gives the element (semi-lattice law) |
| `ConstantPropagationLattice.JoinCommutative` | clang/unittests/Analysis/FlowSensitive/SingleVarConstantPropagationTest.cpp:47-49 | the join does not depend on operand order (semi-lattice law) |
| `ConstantPropagationLattice.JoinAssociative` | clang/unittests/Analysis/FlowSensitive/SingleVarConstantPropagationTest.cpp:47-49 | the join is associative (semi-lattice law) |
| `ConstantPropagationLattice.JoinIsLeast` | clang/unittests/Analysis/FlowSensitive/SingleVarConstantPropagationTest.cpp:76-87 | the join is below every common upper bound, so it is the least upper bound |
| `ConstantPropagationLattice.LeqPartialOrder` | clang/unittests/Analysis/FlowSensitive/SingleVarConstantPropagationTest.cpp:47-54 | the flat order of bottom, known pairs and top is reflexive, antisymmetric and transitive |
| `ConstantPropagationLattice.LeqIffJoinAbsorbs` | clang/unittests/Analysis/FlowSensitive/SingleVarConstantPropagationTest.cpp:76-87 | `a` is below `b` exactly when joining `a` into `b` leaves `b`: the order is the one the join induces |
| `ConstantPropagationLattice.JoinChangeRaisesRank` | clang/unittests/Analysis/FlowSensitive/SingleVarConstantPropagationTest.cpp:66-87 | every change the join makes strictly raises the element's height, which is at most 2 |
| `ConstantPropagationLattice.JoinPreservesWellFormed` | clang/unittests/Analysis/FlowSensitive/SingleVarConstantPropagationTest.cpp:51-54 | joining elements that are bottom, top or pairs with a non-null variable yields such an element |
| `ConstantPropagationLattice.JoinSameOrDifferentConstant` | clang/unittests/Analysis/FlowSensitive/SingleVarConstantPropagationTest.cpp:76-87 | known(v,2) joined with known(v,2) is known(v,2); known(v,1) joined with known(v,2) is top |
| `ConstantPropagationAnalysis.InitialElement` | clang/unittests/Analysis/FlowSensitive/SingleVarConstantPropagationTest.cpp:122-124 | the initial element is at height 0 (bottom), and well formed |
| `ConstantPropagationAnalysis.InitialElementIsIdentity` | clang/unittests/Analysis/FlowSensitive/SingleVarConstantPropagationTest.cpp:122-124 | the initial element is below everything and an identity of the join |
| `ConstantPropagationAnalysis.TransferValue` | clang/unittests/Analysis/FlowSensitive/SingleVarConstantPropagationTest.cpp:126-169 | an unmatched statement leaves the element unchanged; a matched one gives a non-bottom, well-formed element that is top or names the statement's variable with the constant it stores, and is exactly known(var, constant) whenever a constant is stored |
| `ConstantPropagationAnalysis.Transfer` | clang/unittests/Analysis/FlowSensitive/SingleVarConstantPropagationTest.cpp:126-169 | the element passed by reference is overwritten with the rule's result for its old value |
| `ConstantPropagationAnalysis.WriteOverwrites` | clang/unittests/Analysis/FlowSensitive/SingleVarConstantPropagationTest.cpp:147-168 | a matched statement ignores the old element; with a constant the result is known(var, constant), otherwise top |
| `ConstantPropagationAnalysis.CompoundAssignGivesTop` | clang/unittests/Analysis/FlowSensitive/SingleVarConstantPropagationTest.cpp:164-168 | a non-`=` assignment gives top even when the variable's value was known |
| `ConstantPropagationAnalysis.OtherIsIdentity` | clang/unittests/Analysis/FlowSensitive/SingleVarConstantPropagationTest.cpp:139-141 | an unmatched statement is the identity; after the initial element it keeps bottom |
| `ConstantPropagationAnalysis.TransferMonotone` | clang/unittests/Analysis/FlowSensitive/SingleVarConstantPropagationTest.cpp:126-169 | the rule is monotone in the element |
| `ConstantPropagationAnalysis.TransferKnownHasVar` | clang/unittests/Analysis/FlowSensitive/SingleVarConstantPropagationTest.cpp:144-163 | from a well-formed element, every known result names a non-null variable, so it is never confused with the top sentinel |
| `StraightLineDataflow.TransferBlock` | clang/unittests/Analysis/FlowSensitive/SingleVarConstantPropagationTest.cpp:139-141 | code in which nothing matches leaves the element unchanged; well-formedness is kept across the whole block |
| `StraightLineDataflow.StatesAfter` | clang/unittests/Analysis/FlowSensitive/SingleVarConstantPropagationTest.cpp:222-238 | one element per statement; after an unmatched statement the label sees the same element as before it |
| `StraightLineDataflow.JoinAll` | clang/unittests/Analysis/FlowSensitive/SingleVarConstantPropagationTest.cpp:76-87 | the merge of predecessor elements is above each of them and well formed when they are |
| `StraightLineDataflow.TransferBlockAppend` | clang/unittests/Analysis/FlowSensitive/SingleVarConstantPropagationTest.cpp:126-169 | running two pieces of code in sequence equals running their concatenation |
| `StraightLineDataflow.StatesAfterIsPrefixFold` | clang/unittests/Analysis/FlowSensitive/SingleVarConstantPropagationTest.cpp:222-238 | the label after statement i sees the fold over the statements up to and including i |
| `StraightLineDataflow.LastWriteDecides` | clang/unittests/Analysis/FlowSensitive/SingleVarConstantPropagationTest.cpp:9-11 | only the last matched statement decides a block's result: it is top or tracks that statement's variable and constant, whatever came before |
| `StraightLineDataflow.TransferBlockMonotone` | clang/unittests/Analysis/FlowSensitive/SingleVarConstantPropagationTest.cpp:9-11 | running a block is monotone in its entry element |
| `StraightLineDataflow.JoinAllIsLeast` | clang/unittests/Analysis/FlowSensitive/SingleVarConstantPropagationTest.cpp:47-49 | the merge is below every common upper bound of the predecessors: their least upper bound |
| `StraightLineDataflow.JoinAllOrderIndependent` | clang/unittests/Analysis/FlowSensitive/SingleVarConstantPropagationTest.cpp:76-87 | predecessors joined in any order give the same entry element |
| `StraightLineDataflow.TwoWayMerge` | clang/unittests/Analysis/FlowSensitive/SingleVarConstantPropagationTest.cpp:76-87 | two agreeing predecessors merge to their element; two different non-bottom ones merge to top |
| `StraightLineDataflow.JustInit` | clang/unittests/Analysis/FlowSensitive/SingleVarConstantPropagationTest.cpp:210-219 | `int target = 1;` gives known(target, 1) |
| `StraightLineDataflow.TwoVariables` | clang/unittests/Analysis/FlowSensitive/SingleVarConstantPropagationTest.cpp:222-238 | labels see known(target,1), known(other,2), known(target,3) |
| `StraightLineDataflow.Assignment` | clang/unittests/Analysis/FlowSensitive/SingleVarConstantPropagationTest.cpp:240-253 | labels see known(target,1), then known(target,2) |
| `StraightLineDataflow.AssignmentCall` | clang/unittests/Analysis/FlowSensitive/SingleVarConstantPropagationTest.cpp:255-266 | assigning a non-constant call result gives top |
| `StraightLineDataflow.AssignmentBinOp` | clang/unittests/Analysis/FlowSensitive/SingleVarConstantPropagationTest.cpp:268-278 | assigning `2 + 3` gives known(target, 5) |
| `StraightLineDataflow.PlusAssignment` | clang/unittests/Analysis/FlowSensitive/SingleVarConstantPropagationTest.cpp:280-293 | labels see known(target,1), then top after `+=` |
| `StraightLineDataflow.SameAssignmentInBranches` | clang/unittests/Analysis/FlowSensitive/SingleVarConstantPropagationTest.cpp:295-317 | bottom before the branch, known(target,2) on both arms and after the merge |
| `StraightLineDataflow.SameAssignmentInBranch` | clang/unittests/Analysis/FlowSensitive/SingleVarConstantPropagationTest.cpp:319-335 | known(target,1) before and after a one-armed branch that assigns 1 again |
| `StraightLineDataflow.NewVarInBranch` | clang/unittests/Analysis/FlowSensitive/SingleVarConstantPropagationTest.cpp:337-359 | on each arm, bottom after the uninitialised declaration, then known(target,1) |
| `StraightLineDataflow.DifferentAssignmentInBranches` | clang/unittests/Analysis/FlowSensitive/SingleVarConstantPropagationTest.cpp:361-383 | known 1 and known 2 on the arms merge to top |
| `StraightLineDataflow.DifferentAssignmentInBranch` | clang/unittests/Analysis/FlowSensitive/SingleVarConstantPropagationTest.cpp:385-401 | known(target,1) merged with a one-armed `target = 3` gives top |

## Left out

- The AST matcher (`stmt`, `declStmt`, `binaryOperator`, `match`) and
  `Expr::EvaluateAsInt`/`getExtValue` are foreign library calls. Their outcome
  is the `StmtKind` given to the rule, including the constant already reduced
  to 64 bits.
- The `Environment` argument of `transfer` is never read by the rule, so it
  is not a parameter of the model.
- The generic worklist engine (`DataflowAnalysis`, `DataflowEnvironment.h`,
  `DataflowLattice.h`) is not modelled; only the straight-line fold and the
  join of predecessors are. The merge in the branch tests is given as
  explicit predecessor lists.
- The test harness (`RunDataflow`, `checkDataflow`, the gmock matchers) and
  label extraction are not modelled. The scenario lemmas state exact elements,
  which is stronger than the source's matchers: `HasConstantVal` checks only
  the value, not the variable.
- `operator<<` is stream output and is left out.
- The rule ignores a variable's address escaping, as the source does. That
  unsoundness is part of the modelled behaviour, not fixed.
- The element-level `operator==` is the predicate `Equals`. It has no contract
  of its own: it is plain equality of `Data`, used by `Join`.
- The `assert` calls at lines 145 and 156 are not modelled as run-time
  checks. The non-null `VarDecl` type of `StmtKind` makes the first one hold
  by construction. The second concerns the matcher's bindings, which the
  model does not have.
- `Bottom` and `Top` are the constants `bottom()` and `top()`; they carry
  no contract of their own. What the source relies on about them is proved
  in `SentinelsDistinct`, `BottomIdentityTopAbsorbing`,
  `InitialElementIsIdentity` and `JoinChangeRaisesRank`.
