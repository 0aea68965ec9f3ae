/**
 * A rank-1 constraint system as the tutorial's program observes it: variables
 * allocated into an instance and a witness assignment, constraints recorded as
 * triples of linear combinations, the satisfaction check, the extraction of
 * sparse matrices indexed by positions of z = instance ++ witness, and the
 * assembly and split of z itself.
 */
module R1cs {
  import opened Field

  /** A variable of the system. Column 0 is the constant One; Instance(i) is
      the i-th entry of the instance assignment (whose entry 0 is One's value);
      Witness(j) is the j-th entry of the witness assignment. */
  datatype Variable = One | Instance(index: nat) | Witness(index: nat)

  /** A linear combination: (coefficient, variable) terms. */
  type Lc = seq<(Fe, Variable)>

  /** The constraint a * b = c. */
  datatype Constraint = Constraint(a: Lc, b: Lc, c: Lc)

  datatype ConstraintSystem = ConstraintSystem(
    instanceAssignment: seq<Fe>,
    witnessAssignment: seq<Fe>,
    constraints: seq<Constraint>)

  /** A freshly created system: the instance holds only the constant 1. */
  function NewSystem(): (cs: ConstraintSystem)
    ensures Valid(cs) && |cs.constraints| == 0 && cs.instanceAssignment == [1] && cs.witnessAssignment == []
  {
    ConstraintSystem([1], [], [])
  }

  predicate VarValid(v: Variable, cs: ConstraintSystem)
  {
    match v
    case One => true
    case Instance(i) => i < |cs.instanceAssignment|
    case Witness(j) => j < |cs.witnessAssignment|
  }

  predicate LcValid(lc: Lc, cs: ConstraintSystem)
  {
    forall k :: 0 <= k < |lc| ==> VarValid(lc[k].1, cs)
  }

  predicate ConstraintValid(con: Constraint, cs: ConstraintSystem)
  {
    LcValid(con.a, cs) && LcValid(con.b, cs) && LcValid(con.c, cs)
  }

  /** Invariant of every system: instance entry 0 is the constant 1 and every
      constraint mentions only allocated variables. */
  predicate Valid(cs: ConstraintSystem)
  {
    && |cs.instanceAssignment| >= 1
    && cs.instanceAssignment[0] == 1
    && forall i :: 0 <= i < |cs.constraints| ==> ConstraintValid(cs.constraints[i], cs)
  }

  /** The value assigned to a variable. */
  function Value(v: Variable, cs: ConstraintSystem): Fe
    requires VarValid(v, cs)
  {
    match v
    case One => 1
    case Instance(i) => cs.instanceAssignment[i]
    case Witness(j) => cs.witnessAssignment[j]
  }

  /** The value of a linear combination under the system's assignment. */
  function EvalLc(lc: Lc, cs: ConstraintSystem): (r: Fe)
    requires LcValid(lc, cs)
    ensures (forall k :: 0 <= k < |lc| ==> lc[k].0 == 0) ==> r == 0
  {
    if lc == [] then 0 else Add(Mul(lc[0].0, Value(lc[0].1, cs)), EvalLc(lc[1..], cs))
  }

  predicate ConstraintHolds(con: Constraint, cs: ConstraintSystem)
    requires ConstraintValid(con, cs)
  {
    Mul(EvalLc(con.a, cs), EvalLc(con.b, cs)) == EvalLc(con.c, cs)
  }

  /** `is_satisfied`: every recorded constraint holds under the assignment. */
  predicate IsSatisfied(cs: ConstraintSystem)
    requires Valid(cs)
    ensures |cs.constraints| == 0 ==> IsSatisfied(cs)
  {
    forall i :: 0 <= i < |cs.constraints| ==> ConstraintHolds(cs.constraints[i], cs)
  }

  // ---------------------------------------------------------------------------
  // Building a system: each step only appends

  /** cs2 is cs1 with possibly more instance entries, witness entries and
      constraints appended. */
  predicate Extends(cs1: ConstraintSystem, cs2: ConstraintSystem)
  {
    && |cs1.instanceAssignment| <= |cs2.instanceAssignment|
    && cs2.instanceAssignment[..|cs1.instanceAssignment|] == cs1.instanceAssignment
    && |cs1.witnessAssignment| <= |cs2.witnessAssignment|
    && cs2.witnessAssignment[..|cs1.witnessAssignment|] == cs1.witnessAssignment
    && |cs1.constraints| <= |cs2.constraints|
    && cs2.constraints[..|cs1.constraints|] == cs1.constraints
  }

  lemma ExtendsTransitive(cs1: ConstraintSystem, cs2: ConstraintSystem, cs3: ConstraintSystem)
    requires Extends(cs1, cs2) && Extends(cs2, cs3)
    ensures Extends(cs1, cs3)
  {
    assert cs3.instanceAssignment[..|cs1.instanceAssignment|]
        == cs3.instanceAssignment[..|cs2.instanceAssignment|][..|cs1.instanceAssignment|];
    assert cs3.witnessAssignment[..|cs1.witnessAssignment|]
        == cs3.witnessAssignment[..|cs2.witnessAssignment|][..|cs1.witnessAssignment|];
    assert cs3.constraints[..|cs1.constraints|]
        == cs3.constraints[..|cs2.constraints|][..|cs1.constraints|];
  }

  /** A variable allocated in cs1 keeps its value in every extension. */
  lemma ValueExtends(v: Variable, cs1: ConstraintSystem, cs2: ConstraintSystem)
    requires Extends(cs1, cs2) && VarValid(v, cs1)
    ensures VarValid(v, cs2) && Value(v, cs2) == Value(v, cs1)
  {
    match v
    case One =>
    case Instance(i) =>
      assert cs2.instanceAssignment[..|cs1.instanceAssignment|][i] == cs2.instanceAssignment[i];
    case Witness(j) =>
      assert cs2.witnessAssignment[..|cs1.witnessAssignment|][j] == cs2.witnessAssignment[j];
  }

  /** A linear combination over the variables of cs1 has the same value in
      every extension of cs1. */
  lemma {:induction false} EvalLcExtends(lc: Lc, cs1: ConstraintSystem, cs2: ConstraintSystem)
    requires Extends(cs1, cs2) && LcValid(lc, cs1)
    ensures LcValid(lc, cs2) && EvalLc(lc, cs2) == EvalLc(lc, cs1)
  {
    forall k | 0 <= k < |lc| ensures VarValid(lc[k].1, cs2) {
      ValueExtends(lc[k].1, cs1, cs2);
    }
    if lc != [] {
      assert LcValid(lc[1..], cs1) by {
        forall k | 0 <= k < |lc[1..]| ensures VarValid(lc[1..][k].1, cs1) {
          assert lc[1..][k] == lc[k + 1];
        }
      }
      EvalLcExtends(lc[1..], cs1, cs2);
      ValueExtends(lc[0].1, cs1, cs2);
    }
  }

  /** Extending a valid system by further valid constraints keeps it
      satisfied exactly when the old system and the added constraints are. */
  lemma {:induction false} SatisfiedExtends(cs1: ConstraintSystem, cs2: ConstraintSystem)
    requires Valid(cs1) && Valid(cs2) && Extends(cs1, cs2)
    ensures IsSatisfied(cs2) <==>
      && IsSatisfied(cs1)
      && forall i :: |cs1.constraints| <= i < |cs2.constraints| ==> ConstraintHolds(cs2.constraints[i], cs2)
  {
    forall i | 0 <= i < |cs1.constraints|
      ensures ConstraintHolds(cs2.constraints[i], cs2) <==> ConstraintHolds(cs1.constraints[i], cs1)
    {
      var con := cs1.constraints[i];
      assert cs2.constraints[..|cs1.constraints|][i] == cs2.constraints[i];
      EvalLcExtends(con.a, cs1, cs2);
      EvalLcExtends(con.b, cs1, cs2);
      EvalLcExtends(con.c, cs1, cs2);
    }
  }

  /** `new_input`: appends a value to the instance assignment and returns the
      variable that reads it back. */
  function NewInputVariable(cs: ConstraintSystem, value: Fe): (r: (ConstraintSystem, Variable))
    requires Valid(cs)
    ensures Valid(r.0) && Extends(cs, r.0)
    ensures |r.0.instanceAssignment| == |cs.instanceAssignment| + 1
    ensures r.0.witnessAssignment == cs.witnessAssignment && r.0.constraints == cs.constraints
    ensures r.1 == Instance(|cs.instanceAssignment|) && VarValid(r.1, r.0) && Value(r.1, r.0) == value
  {
    var cs' := cs.(instanceAssignment := cs.instanceAssignment + [value]);
    assert Extends(cs, cs');
    forall v | VarValid(v, cs) ensures VarValid(v, cs') { ValueExtends(v, cs, cs'); }
    (cs', Instance(|cs.instanceAssignment|))
  }

  /** `new_witness`: appends a value to the witness assignment and returns
      the variable that reads it back. */
  function NewWitnessVariable(cs: ConstraintSystem, value: Fe): (r: (ConstraintSystem, Variable))
    requires Valid(cs)
    ensures Valid(r.0) && Extends(cs, r.0)
    ensures |r.0.witnessAssignment| == |cs.witnessAssignment| + 1
    ensures r.0.instanceAssignment == cs.instanceAssignment && r.0.constraints == cs.constraints
    ensures r.1 == Witness(|cs.witnessAssignment|) && VarValid(r.1, r.0) && Value(r.1, r.0) == value
  {
    var cs' := cs.(witnessAssignment := cs.witnessAssignment + [value]);
    assert Extends(cs, cs');
    forall v | VarValid(v, cs) ensures VarValid(v, cs') { ValueExtends(v, cs, cs'); }
    (cs', Witness(|cs.witnessAssignment|))
  }

  /** `enforce_constraint`: records one more constraint after the others. */
  function EnforceConstraint(cs: ConstraintSystem, con: Constraint): (cs': ConstraintSystem)
    requires Valid(cs) && ConstraintValid(con, cs)
    ensures Valid(cs') && Extends(cs, cs')
    ensures cs'.instanceAssignment == cs.instanceAssignment
    ensures cs'.witnessAssignment == cs.witnessAssignment
    ensures |cs'.constraints| == |cs.constraints| + 1 && cs'.constraints[|cs.constraints|] == con
  {
    var cs' := cs.(constraints := cs.constraints + [con]);
    assert cs'.constraints[..|cs.constraints|] == cs.constraints;
    cs'
  }

  /** Multiplication of two allocated field variables: the product is
      allocated as a new witness entry and the constraint
      1*u * 1*w = 1*product is recorded. */
  function MulVariables(cs: ConstraintSystem, u: Variable, w: Variable): (r: (ConstraintSystem, Variable))
    requires Valid(cs) && VarValid(u, cs) && VarValid(w, cs)
    ensures Valid(r.0) && Extends(cs, r.0)
    ensures r.0.instanceAssignment == cs.instanceAssignment
    ensures r.0.witnessAssignment == cs.witnessAssignment + [Mul(Value(u, cs), Value(w, cs))]
    ensures |r.0.constraints| == |cs.constraints| + 1
    ensures r.1 == Witness(|cs.witnessAssignment|)
    ensures r.0.constraints[|cs.constraints|] == Constraint([(1, u)], [(1, w)], [(1, r.1)])
  {
    var (cs1, product) := NewWitnessVariable(cs, Mul(Value(u, cs), Value(w, cs)));
    ValueExtends(u, cs, cs1);
    ValueExtends(w, cs, cs1);
    var cs2 := EnforceConstraint(cs1, Constraint([(1, u)], [(1, w)], [(1, product)]));
    ExtendsTransitive(cs, cs1, cs2);
    (cs2, product)
  }

  // ---------------------------------------------------------------------------
  // Sparse matrices over z

  /** A sparse matrix row: (coefficient, column of z) entries. */
  type Row = seq<(Fe, nat)>

  predicate RowInBounds(row: Row, width: nat)
  {
    forall k :: 0 <= k < |row| ==> row[k].1 < width
  }

  /** Row evaluation: the sum of coeff * z[col] over the row's entries; the
      empty row is 0. */
  function Dot(row: Row, z: seq<Fe>): (r: Fe)
    requires RowInBounds(row, |z|)
    ensures (forall k :: 0 <= k < |row| ==> row[k].0 == 0) ==> r == 0
  {
    if row == [] then 0 else Add(Mul(row[0].0, z[row[0].1]), Dot(row[1..], z))
  }

  /** The output of `to_matrices`: the sizes of the two assignments and the
      three matrices, one row per constraint. */
  datatype Matrices = Matrices(
    numInstance: nat,
    numWitness: nat,
    a: seq<Row>,
    b: seq<Row>,
    c: seq<Row>)

  /** Identical row counts and every column inside z. */
  predicate WellShaped(m: Matrices)
  {
    && |m.a| == |m.b| == |m.c|
    && forall i :: 0 <= i < |m.a| ==>
         && RowInBounds(m.a[i], m.numInstance + m.numWitness)
         && RowInBounds(m.b[i], m.numInstance + m.numWitness)
         && RowInBounds(m.c[i], m.numInstance + m.numWitness)
  }

  predicate RowHolds(a: Row, b: Row, c: Row, z: seq<Fe>)
    requires RowInBounds(a, |z|) && RowInBounds(b, |z|) && RowInBounds(c, |z|)
  {
    Mul(Dot(a, z), Dot(b, z)) == Dot(c, z)
  }

  /** z satisfies the matrices when (A_i . z) * (B_i . z) = C_i . z for every row i. */
  predicate MatricesSatisfied(m: Matrices, z: seq<Fe>)
    requires WellShaped(m) && |z| == m.numInstance + m.numWitness
  {
    forall i :: 0 <= i < |m.a| ==> RowHolds(m.a[i], m.b[i], m.c[i], z)
  }

  /** The column of z that holds a variable once there are numInstance
      instance entries: One is column 0, Instance(i) column i, and the
      witness entries follow the instance entries. */
  function Column(v: Variable, numInstance: nat): (col: nat)
    ensures v.One? ==> col == 0
    ensures v.Instance? && v.index < numInstance ==> col < numInstance
    ensures v.Witness? ==> numInstance <= col
  {
    match v
    case One => 0
    case Instance(i) => i
    case Witness(j) => numInstance + j
  }

  /** The matrix row of a linear combination. */
  function RowOf(lc: Lc, numInstance: nat): (row: Row)
    ensures |row| == |lc|
    ensures forall k :: 0 <= k < |lc| ==> row[k] == (lc[k].0, Column(lc[k].1, numInstance))
  {
    if lc == [] then [] else [(lc[0].0, Column(lc[0].1, numInstance))] + RowOf(lc[1..], numInstance)
  }

  /** A valid variable's column lies inside z and holds the variable's value. */
  lemma ColumnOfValid(v: Variable, cs: ConstraintSystem)
    requires Valid(cs) && VarValid(v, cs)
    ensures Column(v, |cs.instanceAssignment|) < |cs.instanceAssignment + cs.witnessAssignment|
    ensures (cs.instanceAssignment + cs.witnessAssignment)[Column(v, |cs.instanceAssignment|)] == Value(v, cs)
  {
  }

  /** Translating a linear combination into a row keeps its columns inside z
      and its value: the row evaluated on z is the combination evaluated on
      the assignment. */
  lemma {:induction false} RowOfEval(lc: Lc, cs: ConstraintSystem)
    requires Valid(cs) && LcValid(lc, cs)
    ensures RowInBounds(RowOf(lc, |cs.instanceAssignment|), |cs.instanceAssignment + cs.witnessAssignment|)
    ensures Dot(RowOf(lc, |cs.instanceAssignment|), cs.instanceAssignment + cs.witnessAssignment) == EvalLc(lc, cs)
  {
    var n := |cs.instanceAssignment|;
    var z := cs.instanceAssignment + cs.witnessAssignment;
    var row := RowOf(lc, n);
    forall k | 0 <= k < |row| ensures row[k].1 < |z| {
      ColumnOfValid(lc[k].1, cs);
    }
    if lc != [] {
      assert LcValid(lc[1..], cs) by {
        forall k | 0 <= k < |lc[1..]| ensures VarValid(lc[1..][k].1, cs) {
          assert lc[1..][k] == lc[k + 1];
        }
      }
      RowOfEval(lc[1..], cs);
      assert row[1..] == RowOf(lc[1..], n);
      ColumnOfValid(lc[0].1, cs);
    }
  }

  /** `to_matrices`: one row of A, B and C per constraint, in the order the
      constraints were recorded. */
  function ToMatrices(cs: ConstraintSystem): (m: Matrices)
    requires Valid(cs)
    ensures WellShaped(m)
    ensures m.numInstance == |cs.instanceAssignment| && m.numWitness == |cs.witnessAssignment|
    ensures |m.a| == |cs.constraints|
    ensures forall i :: 0 <= i < |cs.constraints| ==>
      && m.a[i] == RowOf(cs.constraints[i].a, |cs.instanceAssignment|)
      && m.b[i] == RowOf(cs.constraints[i].b, |cs.instanceAssignment|)
      && m.c[i] == RowOf(cs.constraints[i].c, |cs.instanceAssignment|)
  {
    var n := |cs.instanceAssignment|;
    var cons := cs.constraints;
    var m := Matrices(n, |cs.witnessAssignment|,
      seq(|cons|, i requires 0 <= i < |cons| => RowOf(cons[i].a, n)),
      seq(|cons|, i requires 0 <= i < |cons| => RowOf(cons[i].b, n)),
      seq(|cons|, i requires 0 <= i < |cons| => RowOf(cons[i].c, n)));
    assert WellShaped(m) by {
      forall i | 0 <= i < |cons|
        ensures RowInBounds(m.a[i], n + |cs.witnessAssignment|)
        ensures RowInBounds(m.b[i], n + |cs.witnessAssignment|)
        ensures RowInBounds(m.c[i], n + |cs.witnessAssignment|)
      {
        RowOfEval(cons[i].a, cs);
        RowOfEval(cons[i].b, cs);
        RowOfEval(cons[i].c, cs);
      }
    }
    m
  }

  /** The symbolic check and the matrix check agree: a system is satisfied
      exactly when z = instance ++ witness satisfies its extracted matrices. */
  lemma {:induction false} MatricesAgreeWithSystem(cs: ConstraintSystem)
    requires Valid(cs)
    ensures IsSatisfied(cs) <==> MatricesSatisfied(ToMatrices(cs), cs.instanceAssignment + cs.witnessAssignment)
  {
    var m := ToMatrices(cs);
    var z := cs.instanceAssignment + cs.witnessAssignment;
    forall i | 0 <= i < |cs.constraints|
      ensures ConstraintHolds(cs.constraints[i], cs) <==> RowHolds(m.a[i], m.b[i], m.c[i], z)
    {
      RowOfEval(cs.constraints[i].a, cs);
      RowOfEval(cs.constraints[i].b, cs);
      RowOfEval(cs.constraints[i].c, cs);
    }
  }

  // ---------------------------------------------------------------------------
  // The assignment vector z

  /** z as `main` builds it: an empty vector extended by the instance
      assignment and then by the witness assignment. Splitting it at the
      instance length gives back the two assignments. */
  method AssembleAssignment(cs: ConstraintSystem) returns (z: seq<Fe>)
    ensures |z| == |cs.instanceAssignment| + |cs.witnessAssignment|
    ensures SplitAt(z, |cs.instanceAssignment|) == (cs.instanceAssignment, cs.witnessAssignment)
  {
    z := [];
    z := z + cs.instanceAssignment;
    assert z == cs.instanceAssignment;
    z := z + cs.witnessAssignment;
    SplitConcat(cs.instanceAssignment, cs.witnessAssignment);
  }

  /** `split_at`: the first mid entries and the rest. */
  function SplitAt(z: seq<Fe>, mid: nat): (parts: (seq<Fe>, seq<Fe>))
    requires mid <= |z|
    ensures |parts.0| == mid && parts.0 + parts.1 == z
  {
    (z[..mid], z[mid..])
  }

  /** Splitting a concatenation at the length of its first part is the
      inverse of concatenation. */
  lemma SplitConcat(front: seq<Fe>, back: seq<Fe>)
    ensures SplitAt(front + back, |front|) == (front, back)
  {
    assert (front + back)[..|front|] == front;
    assert (front + back)[|front|..] == back;
  }
}
