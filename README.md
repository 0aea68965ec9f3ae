# Rank-1 constraint system for y = x^3 + x + 5 over BLS12-381

This project models the arkworks R1CS tutorial program. `CubeCircuit` encodes
the relation y = x³ + x + 5 over the scalar field Fr of the BLS12-381 curve
as a Rank-1 Constraint System. `main` then does four things:
- it generates the constraints for x = 3 into a fresh constraint system;
- it checks that the system is satisfied;
- it assembles the assignment vector z from the instance and witness
  assignments and splits it again;
- it extracts the sparse matrices A, B and C.

The model has three modules:

- `Field` (Field.dfy): Fr as the integers modulo its prime order
  P = 52435875175126190479447740508185965837690552500527637822603658699938581184513.
  Elements are canonical, so the field's −1 is stored as P − 1, the value
  the program prints in the matrices.
- `R1cs` (R1cs.dfy): the constraint system as the program sees it:
  - Variables are `One`, `Instance(i)` and `Witness(j)`. A fresh system's
    instance assignment is `[1]`.
  - Allocating an input or a witness appends to its assignment.
  - A multiplication of two variables allocates the product as a witness
    and records 1·u · 1·w = 1·product.
  - `is_satisfied` checks every constraint.
  - `to_matrices` maps each linear combination to a sparse row of
    (coefficient, column) pairs. One is column 0, `Instance(i)` is
    column i, and `Witness(j)` is column |instance| + j.
  - A row evaluates to Σ coeff·z[col]; the empty row evaluates to 0.
  - z is instance ++ witness, built by two appends and split back with
    `split_at`.
- `Cube` (Cube.dfy): `generate_constraints` as its sequence of builder
  steps:
  - y is allocated as the input, then x as a witness;
  - x·x and x²·x each add a witness entry and a constraint;
  - the final equality records (x + 5 + x³ − y)·1 = 0.

  The module also holds the documented rows of A, B and C, the exactness
  and completeness properties of the encoding, the worked example x = 3,
  and `main`'s run.

The central results are these:
- Generating the circuit into any valid system leaves it satisfied exactly
  when it was satisfied before and y = x³ + x + 5 (`GenerateConstraintsSatisfied`).
- For a fresh system, the extracted matrices are exactly the documented rows,
  whatever x and y are (`FreshSystemMatrices`). The symbolic check and the
  matrix check agree (`MatricesAgreeWithSystem`).
- When z[0] = 1, a vector z of length 5 satisfies the rows iff it is
  [1, y, x, x², x³] with y = x³ + x + 5 for its own x = z[2]
  (`CubeMatricesSatisfiedIffHonest`).

Changing any one of y, x, x² and x³ alone in an honest assignment breaks
satisfaction (`TamperingBreaksSatisfaction`). For x, the equality row is what
catches the change: y and x³ still belong to the old x, so it would force the
new x to equal the old one. The rows alone do not pin z[0], though. If z[0] is
set to 0 in an honest assignment, all three rows still hold
(`ConstantColumnNotPinned`). Satisfaction relies on the system fixing instance
entry 0 to 1.

## Model

| member | source | states |
|---|---|---|
| `Field.FromInt` | src/main.rs:36-38 | `Fr::from` of an integer is congruent to it mod P, and constants below P (3, 5) are kept unchanged |
| `Field.Add` | src/main.rs:38 | field addition by conditional subtraction equals (a + b) mod P |
| `Field.Mul` | src/main.rs:38 | field multiplication modulo P has 1 as identity on both sides and 0 as absorbing element |
| `Field.Neg` | src/main.rs:76 | the negation is the additive inverse, and it is 0 only for 0 |
| `Field.MinusOneIsPMinusOne` | src/main.rs:76 | −1 in Fr is the integer P − 1, both as the inverse of 1 and as −1 reduced mod P |
| `Field.MulMinusOne` | src/main.rs:98 | multiplying by the stored coefficient P − 1 negates |
| `R1cs.NewSystem` | src/main.rs:45 | a new constraint system is valid, with instance assignment [1], an empty witness and no constraints |
| `R1cs.NewInputVariable` | src/main.rs:21 | allocating an input appends exactly one instance entry. The returned variable `Instance(old length)` reads back the given value. Witness and constraints are unchanged, and validity is kept |
| `R1cs.NewWitnessVariable` | src/main.rs:22 | allocating a witness appends exactly one witness entry. The returned variable `Witness(old length)` reads back the given value. Instance and constraints are unchanged, and validity is kept |
| `R1cs.MulVariables` | src/main.rs:25-27 | multiplying two variables appends their product to the witness and records one constraint 1·u · 1·w = 1·product after the existing ones |
| `R1cs.EnforceConstraint` | src/main.rs:29 | recording a constraint appends it after the existing ones, leaves the assignments unchanged and keeps the system valid |
| `R1cs.EvalLc` | src/main.rs:48 | the value of a linear combination under the assignment is 0 when every coefficient is 0, in particular for the empty combination |
| `R1cs.IsSatisfied` | src/main.rs:48 | `is_satisfied` is every constraint a·b = c holding under the assignment, and a system without constraints is satisfied |
| `R1cs.ValueExtends` | src/main.rs:21-29 | a variable keeps its value as later allocations and constraints are appended |
| `R1cs.EvalLcExtends` | src/main.rs:21-29 | a linear combination keeps its value as later allocations and constraints are appended |
| `R1cs.SatisfiedExtends` | src/main.rs:47-48 | an extended system is satisfied iff the original is and every appended constraint holds |
| `R1cs.Dot` | src/main.rs:87-100 | a matrix row evaluates to Σ coeff·z[col], which is 0 when every coefficient is 0, as for the empty C row |
| `R1cs.Column` | src/main.rs:68 | One is column 0, an instance variable's column lies below len(instance), and witness columns come after all instance columns |
| `R1cs.RowOf` | src/main.rs:68 | entry k of a row is coefficient k of the linear combination with its variable's column in z |
| `R1cs.RowOfEval` | src/main.rs:87-100 | a row's columns lie inside z, and Σ coeff·z[col] equals the combination's value under the assignment |
| `R1cs.ToMatrices` | src/main.rs:66-71 | the matrices are well shaped: A, B and C each have one row per constraint, in recording order, and every column is below len(z) |
| `R1cs.MatricesAgreeWithSystem` | src/main.rs:48 | `is_satisfied` holds iff z = instance ++ witness satisfies the extracted A, B, C row by row |
| `R1cs.AssembleAssignment` | src/main.rs:56-58 | z has length len(instance) + len(witness), and splitting it at len(instance) gives back the instance and witness assignments |
| `R1cs.SplitAt` | src/main.rs:62 | the first part has length mid, and the two parts concatenate back to z |
| `R1cs.SplitConcat` | src/main.rs:62 | splitting instance ++ witness at len(instance) gives back exactly the two parts |
| `Cube.Relation` | src/main.rs:38 | y = x·x·x + x + 5 makes the documented equality row 5 − y + x + x³ vanish (with `EqualityRowZero`, it is the only such y) |
| `Cube.EqualityLcTerms` | src/main.rs:29 | the equality's combination has exactly the terms of x + 5 + x³ − y, each once, only reordered by column |
| `Cube.GenerateConstraints` | src/main.rs:17-31 | in allocation order, y becomes the next instance entry and x, x², x³ the next witness entries. Exactly three constraints follow the existing ones: x·x = x², x²·x = x³, then the equality |
| `Cube.EqualityRowZero` | src/main.rs:97-98 | 5 − y + x + x³ is 0 in Fr iff y = x³ + x + 5 |
| `Cube.GenerateConstraintsSatisfied` | src/main.rs:21-29 | the system after generation is satisfied iff it was before and y = x³ + x + 5 |
| `Cube.CubeProductsHold` | src/main.rs:25-27 | after generation, x·x = x² and x²·x = x³ always hold, because both products are computed from x |
| `Cube.CubeEqualityHolds` | src/main.rs:29 | after generation, the equality constraint holds iff y = x³ + x + 5 |
| `Cube.CubeAppendedHold` | src/main.rs:21-29 | the three appended constraints all hold iff y = x³ + x + 5 |
| `Cube.CubeMatrices` | src/main.rs:87-100 | the documented A, B, C have 3 rows each, and every column is below len(z) = 5 |
| `Cube.CubeAssignment` | src/main.rs:56-58 | z has length 5: the constant 1, then y, then x. `FreshSystemAssignment` shows that it is exactly the generated instance ++ witness |
| `Cube.FreshSystemAssignment` | src/main.rs:21-27 | in a fresh system the instance is [1, y], the witness is [x, x², x³], and z = [1, y, x, x², x³] |
| `Cube.FreshSystemMatrices` | src/main.rs:87-100 | the matrices extracted from a fresh system are exactly the documented rows, for every x and y |
| `Cube.EqualityRowOf` | src/main.rs:98 | the equality's combination becomes the row [(5,0), (P−1,1), (1,2), (1,4)] |
| `Cube.CubeRowValues` | src/main.rs:87-100 | the documented rows evaluate to z[2]·z[2] vs z[3], z[3]·z[2] vs z[4], and (5·z[0] − z[1] + z[2] + z[4])·z[0] vs 0. The empty C row is 0 |
| `Cube.CubeMatricesExact` | src/main.rs:87-100 | given z[0] = 1, z satisfies the three rows iff z[3] = z[2]², z[4] = z[3]·z[2] and z[1] = z[4] + z[2] + 5 |
| `Cube.EqualityRowHolds` | src/main.rs:97-100 | given z[0] = 1, the third row holds iff z[1] = z[4] + z[2] + 5 |
| `Cube.CubeMatricesSatisfiedIffHonest` | src/main.rs:87-100 | given z[0] = 1, z satisfies the rows iff z = [1, x³ + x + 5, x, x², x³] for x = z[2] |
| `Cube.HonestAssignmentSatisfies` | src/main.rs:38 | for every x, [1, x³ + x + 5, x, x², x³] satisfies all three rows |
| `Cube.TamperingBreaksSatisfaction` | src/main.rs:87-100 | changing any one of z[1], z[2], z[3] and z[4] (y, x, x², x³) alone in the honest assignment breaks satisfaction |
| `Cube.ConstantColumnNotPinned` | src/main.rs:97-99 | the rows do not constrain z[0]: the honest assignment with z[0] = 0 still satisfies them |
| `Cube.FreshSystemSatisfied` | src/main.rs:47-48 | for the fresh system, `is_satisfied`, the documented rows on z and the relation y = x³ + x + 5 all agree |
| `Cube.ExampleThree` | src/main.rs:88-100 | x = 3 gives y = 35 and z = [1, 35, 3, 9, 27]. The rows evaluate to 3·3 = 9, 9·3 = 27 and 0·1 = 0 |
| `Cube.RunExample` | src/main.rs:36-67 | the run for x = 3 is satisfied, z = [1, 35, 3, 9, 27], the split gives [1, 35] and [3, 9, 27], and the matrices are the documented ones |

## Left out

- Printing: every `println!` and the loops that print the matrix rows
  (src/main.rs:49-54, 60, 63-64, 73-85). They only report values.
- Setting `RUST_BACKTRACE` (src/main.rs:35): process-wide diagnostic
  configuration, not part of the constraint system.
- The commented-out `SynthesisMode::Setup` line (src/main.rs:46): dead code.
  The model works like the default mode the program uses, which records
  both the assignment and the constraints.
- `inline_all_lcs` (src/main.rs:66). The sum x + 5 + x³ is not kept as a
  symbolic linear combination and inlined later. The equality constraint is
  recorded directly in its inlined, column-ordered form, as the documented
  rows show it.
- The library's error paths. The `?` and `unwrap` calls on allocation,
  `is_satisfied` and `to_matrices` can only fail when an assignment is
  missing or matrices are not constructed. The circuit always carries both
  values, so every step succeeds in the model, and `generate_constraints`
  returns the new system rather than a `Result<(), SynthesisError>`.
- `ConstraintSystemRef` is a shared, mutable reference. The model threads the
  system through the builder steps as a value, so aliasing is not modelled.
- The non-zero entry counts and the other bookkeeping fields of
  `ConstraintMatrices`, and `num_constraints` (printed only). The model keeps
  the instance and witness sizes and the three matrices.
- Fr arithmetic is integers mod P: no Montgomery representation and no
  inverses, which the circuit does not use.
- Pruning and merging of terms in `to_matrices`. arkworks drops
  zero-coefficient terms and merges repeated variables when it builds a
  row. `RowOf` keeps one entry per term, as written. This makes no
  difference for this circuit: its coefficients are 1, 5 and P − 1, on
  distinct variables in each combination. Zero-coefficient terms would not
  change any value either (`R1cs.Dot`, `R1cs.EvalLc`).
- Groth16 setup, proving and verification, pairings and randomness: the
  program does not call them.
