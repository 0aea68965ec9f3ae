/**
 * The tutorial's circuit for the relation y = x^3 + x + 5 over the
 * BLS12-381 scalar field: how it allocates its variables and records its
 * three constraints, the matrices those constraints become, and the
 * assignment z = [1, y, x, x^2, x^3] that satisfies them.
 */
module Cube {
  import opened Field
  import opened R1cs

  /** x is the private input, y the public one. */
  datatype CubeCircuit = CubeCircuit(x: Fe, y: Fe)

  /** The public relation, evaluated as `main` evaluates it: x*x*x + x + 5. */
  function Relation(x: Fe): (y: Fe)
    ensures Add(5, Add(Neg(y), Add(x, Mul(Mul(x, x), x)))) == 0
  {
    Add(Add(Mul(Mul(x, x), x), x), 5)
  }

  /** The linear combination of the final equality, x + 5 + x^3 - y, in the
      inlined form the matrices show (ordered by column). */
  function EqualityLc(y: Variable, x: Variable, xCubed: Variable): Lc
  {
    [(5, One), (Neg(1), y), (1, x), (1, xCubed)]
  }

  /** The equality's combination has exactly the terms of x + 5 + x^3 - y,
      each once, only reordered. */
  lemma EqualityLcTerms(y: Variable, x: Variable, xCubed: Variable)
    ensures multiset(EqualityLc(y, x, xCubed)) == multiset{(1, x), (5, One), (1, xCubed), (Neg(1), y)}
  {
  }

  /** The three constraints that follow those of cs in cs', in creation
      order: x * x = x^2, x^2 * x = x^3, and (x + 5 + x^3 - y) * 1 = 0, where
      y is the next instance entry and x, x^2, x^3 the next witness entries. */
  predicate CubeConstraints(cs: ConstraintSystem, cs': ConstraintSystem)
  {
    var n, w, k := |cs.instanceAssignment|, |cs.witnessAssignment|, |cs.constraints|;
    && |cs'.constraints| >= k + 3
    && cs'.constraints[k] == Constraint([(1, Witness(w))], [(1, Witness(w))], [(1, Witness(w + 1))])
    && cs'.constraints[k + 1] == Constraint([(1, Witness(w + 1))], [(1, Witness(w))], [(1, Witness(w + 2))])
    && cs'.constraints[k + 2] == Constraint(EqualityLc(Instance(n), Witness(w), Witness(w + 2)), [(1, One)], [])
  }

  /** `generate_constraints`: y becomes the next instance entry and x the
      next witness entry; the two multiplications append x^2 and x^3 as
      witness entries with one constraint each; the final equality records
      (x + 5 + x^3 - y) * 1 = 0. */
  function GenerateConstraints(circuit: CubeCircuit, cs: ConstraintSystem): (cs': ConstraintSystem)
    requires Valid(cs)
    ensures Valid(cs') && Extends(cs, cs')
    ensures cs'.instanceAssignment == cs.instanceAssignment + [circuit.y]
    ensures cs'.witnessAssignment ==
      cs.witnessAssignment + [circuit.x, Mul(circuit.x, circuit.x), Mul(Mul(circuit.x, circuit.x), circuit.x)]
    ensures |cs'.constraints| == |cs.constraints| + 3
    ensures CubeConstraints(cs, cs')
  {
    var (cs1, y) := NewInputVariable(cs, circuit.y);
    var (cs2, x) := NewWitnessVariable(cs1, circuit.x);
    var (cs3, xSquared) := MulVariables(cs2, x, x);
    var (cs4, xCubed) := MulVariables(cs3, xSquared, x);
    ValueExtends(y, cs1, cs4);
    ValueExtends(x, cs2, cs4);
    ExtendsTransitive(cs1, cs2, cs3);
    ExtendsTransitive(cs1, cs3, cs4);
    ExtendsTransitive(cs, cs1, cs4);
    var cs5 := EnforceConstraint(cs4, Constraint(EqualityLc(y, x, xCubed), [(1, One)], []));
    ExtendsTransitive(cs, cs4, cs5);
    assert cs5.constraints[..|cs4.constraints|] == cs4.constraints;
    assert cs4.constraints[..|cs3.constraints|] == cs3.constraints;
    assert cs5.constraints[|cs.constraints|] == cs3.constraints[|cs.constraints|];
    assert cs5.constraints[|cs.constraints| + 1] == cs4.constraints[|cs.constraints| + 1];
    cs5
  }

  /** The arithmetic of the equality row: 5 - y + x + x^3 is zero in the
      field exactly when y = x^3 + x + 5. */
  lemma EqualityRowZero(y: Fe, x: Fe, xCubed: Fe)
    ensures Add(5, Add(Neg(y), Add(x, xCubed))) == 0 <==> y == Add(Add(xCubed, x), 5)
  {
    var s := Add(x, xCubed);
    assert Add(xCubed, x) == s;
    assert Add(Neg(y), s) == (s - y) % P;
    assert Add(5, Add(Neg(y), s)) == (5 + s - y) % P;
  }

  /** The circuit's constraints hold exactly when the relation does:
      generating them into a valid system leaves it satisfied iff it was
      satisfied before and y = x^3 + x + 5. The multiplications can never be
      violated because their products are computed from the inputs. */
  lemma {:induction false} GenerateConstraintsSatisfied(circuit: CubeCircuit, cs: ConstraintSystem)
    requires Valid(cs)
    ensures IsSatisfied(GenerateConstraints(circuit, cs))
        <==> IsSatisfied(cs) && circuit.y == Relation(circuit.x)
  {
    CubeAppendedHold(circuit, cs);
    SatisfiedExtends(cs, GenerateConstraints(circuit, cs));
  }

  /** The three constraints generation appends all hold iff y = x^3 + x + 5. */
  lemma CubeAppendedHold(circuit: CubeCircuit, cs: ConstraintSystem)
    requires Valid(cs)
    ensures var cs' := GenerateConstraints(circuit, cs);
      (forall i :: |cs.constraints| <= i < |cs'.constraints| ==> ConstraintHolds(cs'.constraints[i], cs'))
        <==> circuit.y == Relation(circuit.x)
  {
    var cs', k := GenerateConstraints(circuit, cs), |cs.constraints|;
    CubeProductsHold(circuit, cs);
    CubeEqualityHolds(circuit, cs);
  }

  /** The constraints x * x = x^2 and x^2 * x = x^3 hold after generation,
      since both products are computed from x. */
  lemma CubeProductsHold(circuit: CubeCircuit, cs: ConstraintSystem)
    requires Valid(cs)
    ensures var cs', k := GenerateConstraints(circuit, cs), |cs.constraints|;
      && ConstraintHolds(cs'.constraints[k], cs')
      && ConstraintHolds(cs'.constraints[k + 1], cs')
  {
    var cs' := GenerateConstraints(circuit, cs);
    var w := |cs.witnessAssignment|;
    var x, x2, x3 := circuit.x, Mul(circuit.x, circuit.x), Mul(Mul(circuit.x, circuit.x), circuit.x);
    assert Value(Witness(w), cs') == x && Value(Witness(w + 1), cs') == x2 && Value(Witness(w + 2), cs') == x3;
    UnitLc(Witness(w), cs');
    UnitLc(Witness(w + 1), cs');
    UnitLc(Witness(w + 2), cs');
  }

  /** The final equality holds after generation exactly when
      y = x^3 + x + 5. */
  lemma CubeEqualityHolds(circuit: CubeCircuit, cs: ConstraintSystem)
    requires Valid(cs)
    ensures var cs', k := GenerateConstraints(circuit, cs), |cs.constraints|;
      ConstraintHolds(cs'.constraints[k + 2], cs') <==> circuit.y == Relation(circuit.x)
  {
    var cs' := GenerateConstraints(circuit, cs);
    var n, w := |cs.instanceAssignment|, |cs.witnessAssignment|;
    var x, x3 := circuit.x, Mul(Mul(circuit.x, circuit.x), circuit.x);
    assert Value(Instance(n), cs') == circuit.y;
    assert Value(Witness(w), cs') == x && Value(Witness(w + 2), cs') == x3;
    UnitLc(One, cs');
    EqualityLcValue(Instance(n), Witness(w), Witness(w + 2), cs');
    EqualityRowZero(circuit.y, x, x3);
  }

  /** A combination with the single term 1 * v has v's value. */
  lemma UnitLc(v: Variable, cs: ConstraintSystem)
    requires VarValid(v, cs)
    ensures LcValid([(1, v)], cs) && EvalLc([(1, v)], cs) == Value(v, cs)
  {
  }

  /** The equality combination evaluates to 5 - y + x + x^3. */
  lemma EqualityLcValue(y: Variable, x: Variable, xCubed: Variable, cs: ConstraintSystem)
    requires VarValid(y, cs) && VarValid(x, cs) && VarValid(xCubed, cs)
    ensures LcValid(EqualityLc(y, x, xCubed), cs)
    ensures EvalLc(EqualityLc(y, x, xCubed), cs)
         == Add(5, Add(Neg(Value(y, cs)), Add(Value(x, cs), Value(xCubed, cs))))
  {
    var lc := EqualityLc(y, x, xCubed);
    assert EvalLc(lc[3..], cs) == Value(xCubed, cs) by {
      assert lc[3..] == [(1, xCubed)];
      UnitLc(xCubed, cs);
    }
    assert EvalLc(lc[2..], cs) == Add(Value(x, cs), Value(xCubed, cs)) by {
      assert lc[2..][1..] == lc[3..];
    }
    assert EvalLc(lc[1..], cs) == Add(Neg(Value(y, cs)), Add(Value(x, cs), Value(xCubed, cs))) by {
      assert lc[1..][1..] == lc[2..];
      MinusOneIsPMinusOne();
      MulMinusOne(Value(y, cs));
    }
  }

  // ---------------------------------------------------------------------------
  // The documented matrices and assignment

  /** The rows of A, B and C as the tutorial documents them, as
      (coefficient, column) pairs; the -1 of the equality row is stored as
      P - 1. */
  function CubeMatrices(): (m: Matrices)
    ensures WellShaped(m) && |m.a| == 3 && m.numInstance + m.numWitness == 5
  {
    Matrices(2, 3,
      [[(1, 2)], [(1, 3)], [(5, 0), (P - 1, 1), (1, 2), (1, 4)]],
      [[(1, 2)], [(1, 2)], [(1, 0)]],
      [[(1, 3)], [(1, 4)], []])
  }

  /** z = [1, y, x, x^2, x^3]: the instance [1, y] followed by the witness
      [x, x^2, x^3]. */
  function CubeAssignment(x: Fe, y: Fe): (z: seq<Fe>)
    ensures |z| == 5 && z[0] == 1 && z[1] == y && z[2] == x
  {
    [1, y, x, Mul(x, x), Mul(Mul(x, x), x)]
  }

  /** Generating the circuit into a fresh system allocates, in order, the
      constant 1 and y as the instance and x, x^2, x^3 as the witness, so
      that z = instance ++ witness is [1, y, x, x^2, x^3]. */
  lemma FreshSystemAssignment(circuit: CubeCircuit)
    ensures GenerateConstraints(circuit, NewSystem()).instanceAssignment == [1, circuit.y]
    ensures GenerateConstraints(circuit, NewSystem()).witnessAssignment
         == [circuit.x, Mul(circuit.x, circuit.x), Mul(Mul(circuit.x, circuit.x), circuit.x)]
    ensures var cs := GenerateConstraints(circuit, NewSystem());
      cs.instanceAssignment + cs.witnessAssignment == CubeAssignment(circuit.x, circuit.y)
  {
  }

  /** Generating the circuit into a fresh system extracts exactly the
      documented matrices, whatever x and y are. */
  lemma FreshSystemMatrices(circuit: CubeCircuit)
    ensures ToMatrices(GenerateConstraints(circuit, NewSystem())) == CubeMatrices()
  {
    CubeSystemMatrices(GenerateConstraints(circuit, NewSystem()));
  }

  /** A system holding just the cube constraints over instance [1, y] and a
      three-entry witness extracts to the documented matrices. */
  lemma CubeSystemMatrices(cs: ConstraintSystem)
    requires Valid(cs) && CubeConstraints(NewSystem(), cs)
    requires |cs.instanceAssignment| == 2 && |cs.witnessAssignment| == 3 && |cs.constraints| == 3
    ensures ToMatrices(cs) == CubeMatrices()
  {
    CubeSystemMatrixA(cs);
    CubeSystemMatrixB(cs);
    CubeSystemMatrixC(cs);
  }

  lemma CubeSystemMatrixA(cs: ConstraintSystem)
    requires Valid(cs) && CubeConstraints(NewSystem(), cs)
    requires |cs.instanceAssignment| == 2 && |cs.constraints| == 3
    ensures ToMatrices(cs).a == CubeMatrices().a
  {
    var m := ToMatrices(cs);
    CubeRowsA(cs.constraints[0], cs.constraints[1], cs.constraints[2]);
  }

  /** The A sides of the three cube constraints become the documented rows of A. */
  lemma CubeRowsA(c0: Constraint, c1: Constraint, c2: Constraint)
    requires c0.a == [(1, Witness(0))] && c1.a == [(1, Witness(1))]
    requires c2.a == EqualityLc(Instance(1), Witness(0), Witness(2))
    ensures [RowOf(c0.a, 2), RowOf(c1.a, 2), RowOf(c2.a, 2)] == CubeMatrices().a
  {
    UnitRowOf(Witness(0));
    UnitRowOf(Witness(1));
    EqualityRowOf();
  }

  lemma CubeSystemMatrixB(cs: ConstraintSystem)
    requires Valid(cs) && CubeConstraints(NewSystem(), cs)
    requires |cs.instanceAssignment| == 2 && |cs.constraints| == 3
    ensures ToMatrices(cs).b == CubeMatrices().b
  {
    assert cs.constraints[2].b == [(1, One)] && cs.constraints[2].c == [];
    var m := ToMatrices(cs);
    UnitRowOf(Witness(0));
    UnitRowOf(One);
    assert m.b[0] == [(1, 2)] && m.b[1] == [(1, 2)] && m.b[2] == [(1, 0)];
  }

  lemma CubeSystemMatrixC(cs: ConstraintSystem)
    requires Valid(cs) && CubeConstraints(NewSystem(), cs)
    requires |cs.instanceAssignment| == 2 && |cs.constraints| == 3
    ensures ToMatrices(cs).c == CubeMatrices().c
  {
    assert cs.constraints[2].b == [(1, One)] && cs.constraints[2].c == [];
    var m := ToMatrices(cs);
    UnitRowOf(Witness(1));
    UnitRowOf(Witness(2));
    assert m.c[0] == [(1, 3)] && m.c[1] == [(1, 4)] && m.c[2] == [];
  }

  lemma UnitRowOf(v: Variable)
    ensures RowOf([(1, v)], 2) == [(1, Column(v, 2))]
  {
  }

  /** The equality combination's row: -1 becomes the coefficient P - 1. */
  lemma EqualityRowOf()
    ensures RowOf(EqualityLc(Instance(1), Witness(0), Witness(2)), 2) == [(5, 0), (P - 1, 1), (1, 2), (1, 4)]
  {
    MinusOneIsPMinusOne();
  }

  /** A row with the single entry (1, j) selects z[j]. */
  lemma UnitRow(j: nat, z: seq<Fe>)
    requires j < |z|
    ensures Dot([(1, j)], z) == z[j]
  {
  }

  /** The values of the documented rows on any z of length 5. */
  lemma CubeRowValues(z: seq<Fe>)
    requires |z| == 5
    ensures Dot(CubeMatrices().a[0], z) == z[2] && Dot(CubeMatrices().b[0], z) == z[2]
    ensures Dot(CubeMatrices().c[0], z) == z[3]
    ensures Dot(CubeMatrices().a[1], z) == z[3] && Dot(CubeMatrices().b[1], z) == z[2]
    ensures Dot(CubeMatrices().c[1], z) == z[4]
    ensures Dot(CubeMatrices().a[2], z) == Add(Mul(5, z[0]), Add(Neg(z[1]), Add(z[2], z[4])))
    ensures Dot(CubeMatrices().b[2], z) == z[0] && Dot(CubeMatrices().c[2], z) == 0
  {
    var m := CubeMatrices();
    UnitRow(2, z);
    UnitRow(3, z);
    UnitRow(4, z);
    UnitRow(0, z);
    var a2 := m.a[2];
    assert Dot(a2[3..], z) == z[4] by {
      assert a2[3..] == [(1, 4)];
    }
    assert Dot(a2[2..], z) == Add(z[2], z[4]) by {
      assert a2[2..][1..] == a2[3..];
    }
    assert Dot(a2[1..], z) == Add(Neg(z[1]), Add(z[2], z[4])) by {
      assert a2[1..][1..] == a2[2..];
      MulMinusOne(z[1]);
    }
  }

  /** The encoding is exact: with z[0] = 1, z satisfies the three rows iff
      z[3] = z[2]^2, z[4] = z[3] * z[2] and z[1] = z[4] + z[2] + 5. */
  lemma CubeMatricesExact(z: seq<Fe>)
    requires |z| == 5 && z[0] == 1
    ensures MatricesSatisfied(CubeMatrices(), z) <==>
      && z[3] == Mul(z[2], z[2])
      && z[4] == Mul(z[3], z[2])
      && z[1] == Add(Add(z[4], z[2]), 5)
  {
    var m := CubeMatrices();
    CubeRowValues(z);
    assert RowHolds(m.a[0], m.b[0], m.c[0], z) <==> z[3] == Mul(z[2], z[2]);
    assert RowHolds(m.a[1], m.b[1], m.c[1], z) <==> z[4] == Mul(z[3], z[2]);
    EqualityRowHolds(z);
    assert MatricesSatisfied(m, z) <==>
      RowHolds(m.a[0], m.b[0], m.c[0], z) && RowHolds(m.a[1], m.b[1], m.c[1], z)
      && RowHolds(m.a[2], m.b[2], m.c[2], z);
  }

  /** With z[0] = 1 the equality row holds iff z[1] = z[4] + z[2] + 5. */
  lemma EqualityRowHolds(z: seq<Fe>)
    requires |z| == 5 && z[0] == 1
    ensures RowHolds(CubeMatrices().a[2], CubeMatrices().b[2], CubeMatrices().c[2], z)
        <==> z[1] == Add(Add(z[4], z[2]), 5)
  {
    var m := CubeMatrices();
    CubeRowValues(z);
    var e := Dot(m.a[2], z);
    assert e == Add(5, Add(Neg(z[1]), Add(z[2], z[4])));
    EqualityRowZero(z[1], z[2], z[4]);
  }

  /** Completeness and soundness on the matrices: with z[0] = 1, z satisfies
      them exactly when it is the honest assignment for its own x = z[2]. */
  lemma CubeMatricesSatisfiedIffHonest(z: seq<Fe>)
    requires |z| == 5 && z[0] == 1
    ensures MatricesSatisfied(CubeMatrices(), z) <==> z == CubeAssignment(z[2], Relation(z[2]))
  {
    CubeMatricesExact(z);
    var h := CubeAssignment(z[2], Relation(z[2]));
    if z[3] == Mul(z[2], z[2]) && z[4] == Mul(z[3], z[2]) && z[1] == Add(Add(z[4], z[2]), 5) {
      assert z == h;
    }
  }

  /** For every field value x, the honest assignment with y = x^3 + x + 5
      satisfies every row. */
  lemma HonestAssignmentSatisfies(x: Fe)
    ensures MatricesSatisfied(CubeMatrices(), CubeAssignment(x, Relation(x)))
  {
    CubeMatricesSatisfiedIffHonest(CubeAssignment(x, Relation(x)));
  }

  /** Changing y, x^2 or x^3 alone away from its honest value breaks
      satisfaction. */
  lemma TamperingBreaksSatisfaction(x: Fe, k: nat, v: Fe)
    requires 1 <= k <= 4
    requires v != CubeAssignment(x, Relation(x))[k]
    ensures !MatricesSatisfied(CubeMatrices(), CubeAssignment(x, Relation(x))[k := v])
  {
    var z := CubeAssignment(x, Relation(x))[k := v];
    if k == 2 {
      // y and x³ still belong to x, so the equality row would force v == x.
      CubeMatricesExact(z);
      assert z[1] == Add(Add(Mul(Mul(x, x), x), x), 5);
      assert z[4] == Mul(Mul(x, x), x);
    } else {
      CubeMatricesSatisfiedIffHonest(z);
      assert z[k] != CubeAssignment(z[2], Relation(z[2]))[k];
    }
  }

  /** The rows alone do not pin z[0]: setting it to 0 in an honest
      assignment still satisfies all three, so the guarantee rests on the
      system fixing instance entry 0 to 1. */
  lemma ConstantColumnNotPinned(x: Fe)
    ensures MatricesSatisfied(CubeMatrices(), CubeAssignment(x, Relation(x))[0 := 0])
  {
    var z := CubeAssignment(x, Relation(x))[0 := 0];
    var m := CubeMatrices();
    CubeRowValues(z);
    assert Mul(Dot(m.a[2], z), 0) == 0;
  }

  /** For the fresh system `main` creates, the symbolic check, the check of
      z = [1, y, x, x^2, x^3] against the documented rows, and the relation
      y = x^3 + x + 5 all agree. */
  lemma FreshSystemSatisfied(circuit: CubeCircuit)
    ensures IsSatisfied(GenerateConstraints(circuit, NewSystem())) <==> circuit.y == Relation(circuit.x)
    ensures MatricesSatisfied(CubeMatrices(), CubeAssignment(circuit.x, circuit.y))
        <==> circuit.y == Relation(circuit.x)
  {
    var cs := GenerateConstraints(circuit, NewSystem());
    GenerateConstraintsSatisfied(circuit, NewSystem());
    FreshSystemAssignment(circuit);
    FreshSystemMatrices(circuit);
    MatricesAgreeWithSystem(cs);
  }

  /** The worked example: x = 3 gives y = 35, z = [1, 35, 3, 9, 27], and the
      rows evaluate to 3 * 3 = 9, 9 * 3 = 27 and (5 - 35 + 3 + 27) * 1 = 0. */
  lemma ExampleThree()
    ensures Relation(3) == 35
    ensures CubeAssignment(3, 35) == [1, 35, 3, 9, 27]
    ensures Dot(CubeMatrices().a[0], [1, 35, 3, 9, 27]) == 3 && Dot(CubeMatrices().b[0], [1, 35, 3, 9, 27]) == 3
    ensures Dot(CubeMatrices().c[0], [1, 35, 3, 9, 27]) == 9
    ensures Dot(CubeMatrices().a[1], [1, 35, 3, 9, 27]) == 9 && Dot(CubeMatrices().b[1], [1, 35, 3, 9, 27]) == 3
    ensures Dot(CubeMatrices().c[1], [1, 35, 3, 9, 27]) == 27
    ensures Dot(CubeMatrices().a[2], [1, 35, 3, 9, 27]) == 0 && Dot(CubeMatrices().b[2], [1, 35, 3, 9, 27]) == 1
    ensures Dot(CubeMatrices().c[2], [1, 35, 3, 9, 27]) == 0
  {
    var z: seq<Fe> := [1, 35, 3, 9, 27];
    CubeRowValues(z);
    EqualityRowZero(35, 3, 27);
  }

  /** The tutorial's run for x = 3: y is computed from the relation, the
      circuit is generated into a fresh system which is then satisfied, z is
      assembled from the instance and witness assignments and split back,
      and the extracted matrices are the documented ones. */
  method RunExample() returns (satisfied: bool, z: seq<Fe>, instanceVars: seq<Fe>, witnessVars: seq<Fe>, m: Matrices)
    ensures satisfied
    ensures z == [1, 35, 3, 9, 27] && instanceVars == [1, 35] && witnessVars == [3, 9, 27]
    ensures m == CubeMatrices()
  {
    var x: Fe := FromInt(3);
    var y := Relation(x);
    ExampleThree();
    var cs := GenerateConstraints(CubeCircuit(x, y), NewSystem());
    GenerateConstraintsSatisfied(CubeCircuit(x, y), NewSystem());
    satisfied := IsSatisfied(cs);
    assert satisfied;
    z := AssembleAssignment(cs);
    var parts := SplitAt(z, |cs.instanceAssignment|);
    instanceVars, witnessVars := parts.0, parts.1;
    FreshSystemAssignment(CubeCircuit(x, y));
    FreshSystemMatrices(CubeCircuit(x, y));
    m := ToMatrices(cs);
  }
}
