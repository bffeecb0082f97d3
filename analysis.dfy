/** The transfer rule of the single-variable constant propagation.

    The statement matcher is replaced by its outcome: a statement is a
    declaration of an integer variable with an initializer, a plain `=`
    assignment to a variable, any other assignment operator on a variable, or
    anything else, tried in that order. For the first two, the `Optional`
    holds the integer the initializer or right-hand side evaluates to, when it
    evaluates to one. The bound variable is never null.
 */
module ConstantPropagationAnalysis {
  import opened ConstantPropagationLattice

  datatype StmtKind =
    | DeclInit(Var: VarDecl, Init: Optional<int64>)
    | PlainAssign(Var: VarDecl, Rhs: Optional<int64>)
    | CompoundAssign(Var: VarDecl)
    | Other

  /** The integer a declaration or plain assignment stores, when it is a
      compile-time constant; a compound assignment stores none that is
      tracked. */
  function StoredConstant(s: StmtKind): Optional<int64>
    requires !s.Other?
  {
    match s
    case DeclInit(_, init) => init
    case PlainAssign(_, rhs) => rhs
    case CompoundAssign(_) => None
  }

  /** The element every block starts from before anything flows into it. */
  function InitialElement(): (init: LatticeValue)
    ensures Rank(init) == 0 && WellFormed(init)
  {
    Bottom()
  }

  /** The element after statement `s`, given the element `e` before it. */
  function TransferValue(s: StmtKind, e: LatticeValue): (r: LatticeValue)
    ensures s.Other? ==> r == e
    ensures !s.Other? ==> r != Bottom() && WellFormed(r)
    ensures !s.Other? && r != Top() ==>
              r.value.Var == s.Var && StoredConstant(s) == Some(r.value.Value)
    ensures !s.Other? && StoredConstant(s).Some? ==> r == Known(s.Var, StoredConstant(s).value)
  {
    match s
    case DeclInit(v, init) =>
      if init.Some? then Known(v, init.value) else Top()
    case PlainAssign(v, rhs) =>
      if rhs.Some? then Known(v, rhs.value) else Top()
    case CompoundAssign(_) =>
      Top()
    case Other =>
      e
  }

  /** Applies the rule to `element` in place. */
  method Transfer(s: StmtKind, element: ConstantPropagationLattice)
    modifies element
    ensures element.Data == TransferValue(s, old(element.Data))
  {
    match s {
      case Other =>
        return;
      case DeclInit(v, init) =>
        element.Data := if init.Some? then Known(v, init.value) else Top();
      case PlainAssign(v, rhs) =>
        element.Data := if rhs.Some? then Known(v, rhs.value) else Top();
      case CompoundAssign(_) =>
        element.Data := Top();
    }
  }

  // ---------------------------------------------------------------------
  // Properties of the rule

  /** Every matched statement forgets the element before it: the variable a
      declaration or plain assignment writes becomes the tracked one, with
      its constant, or the element becomes top. */
  lemma WriteOverwrites(s: StmtKind, e1: LatticeValue, e2: LatticeValue)
    requires !s.Other?
    ensures TransferValue(s, e1) == TransferValue(s, e2)
    ensures StoredConstant(s).Some? ==>
              TransferValue(s, e1) == Known(s.Var, StoredConstant(s).value)
    ensures StoredConstant(s).None? ==> TransferValue(s, e1) == Top()
  {
  }

  /** Any assignment operator other than `=` gives top, even when the
      element already knew the variable's value. */
  lemma CompoundAssignGivesTop(v: VarDecl, x: int64)
    ensures TransferValue(CompoundAssign(v), Known(v, x)) == Top()
  {
  }

  /** The initial element is the identity of the join: merging it with a
      predecessor's element gives that element. */
  lemma InitialElementIsIdentity(x: LatticeValue)
    ensures JoinValues(InitialElement(), x) == x && JoinValues(x, InitialElement()) == x
    ensures Leq(InitialElement(), x)
  {
  }

  /** A statement that matches nothing leaves the element alone; a plain
      declaration without initializer after the initial element keeps bottom. */
  lemma OtherIsIdentity(e: LatticeValue)
    ensures TransferValue(Other, e) == e
    ensures TransferValue(Other, InitialElement()) == Bottom()
  {
  }

  /** The rule is monotone in the element. */
  lemma TransferMonotone(s: StmtKind, a: LatticeValue, b: LatticeValue)
    requires Leq(a, b)
    ensures Leq(TransferValue(s, a), TransferValue(s, b))
  {
  }

  /** A known element the rule produces names a real variable, never the
      null of the top sentinel. */
  lemma TransferKnownHasVar(s: StmtKind, e: LatticeValue)
    requires WellFormed(e)
    requires TransferValue(s, e) != Bottom() && TransferValue(s, e) != Top()
    ensures TransferValue(s, e).value.Var != null
  {
  }
}
