/** The flat semi-lattice that tracks the value of one integer variable.

    `Data` is an optional pair (variable, value). The absent value is bottom
    ("no information yet"); the pair whose variable is null and whose value is
    0 is top ("more than one value, or more than one variable"); every other
    pair says that the variable holds exactly that value on every path.
 */
module ConstantPropagationLattice {

  /** A signed 64-bit integer, the type of `VarValue::Value`. */
  newtype int64 = x: int | -0x8000_0000_0000_0000 <= x < 0x8000_0000_0000_0000

  /** A variable declaration of the analysed program. Only its identity
      matters here: a `VarDecl?` is a pointer that may be null. */
  class VarDecl {}

  /** The pair carried by a non-bottom element; equality is field-wise. */
  datatype VarValue = VarValue(Var: VarDecl?, Value: int64)

  /** The optional wrapper; `None` is bottom. */
  datatype Optional<+T> = None | Some(value: T)

  type LatticeValue = Optional<VarValue>

  /** The value `operator==` of `VarValue` compares: both fields. Its
      contract is what lets the rest of the model compare pairs, and the
      optional elements holding them, with Dafny's structural `==`. */
  function SameVarValue(lhs: VarValue, rhs: VarValue): (eq: bool)
    ensures eq <==> lhs == rhs
  {
    lhs.Var == rhs.Var && lhs.Value == rhs.Value
  }

  /** `bottom()`: no information yet. */
  function Bottom(): LatticeValue { None }

  /** `top()`: the sentinel pair of a null variable and the value 0. */
  function Top(): LatticeValue { Some(VarValue(null, 0)) }

  /** "`v` holds exactly `x`". */
  function Known(v: VarDecl, x: int64): LatticeValue { Some(VarValue(v, x)) }

  /** An element that is bottom, top, or a pair whose variable is a real
      declaration: it cannot be mistaken for the top sentinel. */
  predicate WellFormed(d: LatticeValue) {
    d == Bottom() || d == Top() || d.value.Var != null
  }

  /** The order of the flat lattice, defined on its own: bottom is below
      everything, top is above everything, and two pairs are related only
      when they are equal. */
  predicate Leq(a: LatticeValue, b: LatticeValue) {
    a == Bottom() || b == Top() || a == b
  }

  /** Height of an element in the order: 0 for bottom, 2 for top, 1 otherwise. */
  function Rank(d: LatticeValue): nat {
    if d == Bottom() then 0 else if d == Top() then 2 else 1
  }

  /** What `join` leaves in the receiver `a` when it is joined with `b`:
      the least upper bound of the two under `Leq`. */
  function JoinValues(a: LatticeValue, b: LatticeValue): (r: LatticeValue)
    ensures Leq(a, r) && Leq(b, r)
    ensures r == a || r == b || r == Top()
  {
    if a == b || b == Bottom() || a == Top() then a
    else if a == Bottom() then b
    else Top()
  }

  datatype LatticeJoinEffect = Changed | Unchanged

  /** The lattice element as an object: `join` overwrites `Data` in place. */
  class ConstantPropagationLattice {
    var Data: LatticeValue

    constructor (data: LatticeValue)
      ensures Data == data
    {
      Data := data;
    }

    /** The element-level `operator==`: equality of `Data`. */
    predicate Equals(other: ConstantPropagationLattice)
      reads this, other
    {
      Data == other.Data
    }

    /** Joins `other` into this element and reports whether it changed.
        `other` may be this very object. */
    method Join(other: ConstantPropagationLattice) returns (effect: LatticeJoinEffect)
      modifies this
      ensures Data == JoinValues(old(Data), old(other.Data))
      ensures effect == Unchanged <==>
                (old(Data) == old(other.Data) || old(other.Data) == Bottom() || old(Data) == Top())
      ensures effect == Changed <==> Data != old(Data)
    {
      if Equals(other) || other.Data == Bottom() || Data == Top() {
        return Unchanged;
      }
      if Data == Bottom() {
        Data := other.Data;
        return Changed;
      }
      Data := Top();
      return Changed;
    }
  }

  // ---------------------------------------------------------------------
  // Properties of the join

  /** `join` reports Unchanged exactly when the receiver equals `other`,
      `other` is bottom, or the receiver is top; then it keeps its value. */
  lemma JoinUnchangedIff(a: LatticeValue, b: LatticeValue)
    ensures JoinValues(a, b) == a <==> (a == b || b == Bottom() || a == Top())
  {
  }

  /** Joining a non-bottom `b` into bottom yields `b`; joining two distinct
      pairs, neither of them top, yields top. */
  lemma JoinChangedCases(a: LatticeValue, b: LatticeValue)
    ensures a == Bottom() && b != Bottom() ==> JoinValues(a, b) == b
    ensures a != b && a != Bottom() && b != Bottom() && a != Top() && b != Top() ==>
              JoinValues(a, b) == Top()
  {
  }

  /** Bottom is an identity and top is absorbing, on both sides. */
  lemma BottomIdentityTopAbsorbing(x: LatticeValue)
    ensures JoinValues(Bottom(), x) == x && JoinValues(x, Bottom()) == x
    ensures JoinValues(Top(), x) == Top() && JoinValues(x, Top()) == Top()
  {
  }

  /** The semi-lattice laws. */
  lemma JoinIdempotent(x: LatticeValue)
    ensures JoinValues(x, x) == x
  {
  }

  lemma JoinCommutative(x: LatticeValue, y: LatticeValue)
    ensures JoinValues(x, y) == JoinValues(y, x)
  {
  }

  lemma JoinAssociative(x: LatticeValue, y: LatticeValue, z: LatticeValue)
    ensures JoinValues(JoinValues(x, y), z) == JoinValues(x, JoinValues(y, z))
  {
  }

  /** The join is below every common upper bound of its operands: with the
      upper-bound half in `JoinValues`'s contract, it is the least upper bound. */
  lemma JoinIsLeast(a: LatticeValue, b: LatticeValue, c: LatticeValue)
    requires Leq(a, c) && Leq(b, c)
    ensures Leq(JoinValues(a, b), c)
  {
  }

  /** `Leq` is a partial order, and it is the order the join induces. */
  lemma LeqPartialOrder(a: LatticeValue, b: LatticeValue, c: LatticeValue)
    ensures Leq(a, a)
    ensures Leq(a, b) && Leq(b, a) ==> a == b
    ensures Leq(a, b) && Leq(b, c) ==> Leq(a, c)
  {
  }

  lemma LeqIffJoinAbsorbs(a: LatticeValue, b: LatticeValue)
    ensures Leq(a, b) <==> JoinValues(a, b) == b
  {
  }

  /** Every change the join makes climbs the order, so no element can change
      more than twice: the lattice has height 2. */
  lemma JoinChangeRaisesRank(a: LatticeValue, b: LatticeValue)
    ensures JoinValues(a, b) != a ==> Rank(a) < Rank(JoinValues(a, b))
    ensures Rank(JoinValues(a, b)) <= 2
  {
  }

  /** Joining never produces a pair that could be confused with top. */
  lemma JoinPreservesWellFormed(a: LatticeValue, b: LatticeValue)
    requires WellFormed(a) && WellFormed(b)
    ensures WellFormed(JoinValues(a, b))
  {
  }

  /** Bottom, top and the elements that name a variable are three distinct
      kinds: no pair with a real variable equals the top sentinel, and no
      element is both bottom and top. */
  lemma SentinelsDistinct(v: VarDecl, x: int64)
    ensures Bottom() != Top()
    ensures Known(v, x) != Top() && Known(v, x) != Bottom()
    ensures WellFormed(Bottom()) && WellFormed(Top()) && WellFormed(Known(v, x))
    ensures Rank(Bottom()) == 0 && Rank(Known(v, x)) == 1 && Rank(Top()) == 2
  {
  }

  /** The two join results the branch tests rely on. */
  lemma JoinSameOrDifferentConstant(v: VarDecl)
    ensures JoinValues(Known(v, 2), Known(v, 2)) == Known(v, 2)
    ensures JoinValues(Known(v, 1), Known(v, 2)) == Top()
  {
  }
}
