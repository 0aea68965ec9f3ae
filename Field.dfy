/**
 * The scalar field Fr of the BLS12-381 curve, modelled as the integers
 * modulo its prime order P. Every element is kept in canonical form
 * 0 <= x < P, so the field's -1 is stored as P - 1.
 */
module Field {

  /** The order of Fr; P - 1 is the value that stands for -1. */
  const P: int := 52435875175126190479447740508185965837690552500527637822603658699938581184513

  /** A canonical field element. */
  type Fe = x: int | 0 <= x < P

  /** Embeds an integer (e.g. a u64 constant) into the field. */
  function FromInt(n: int): (r: Fe)
    ensures (n - r) % P == 0
    ensures 0 <= n < P ==> r == n
  {
    n % P
  }

  /** Addition with one conditional subtraction of P. */
  function Add(a: Fe, b: Fe): (r: Fe)
    ensures r == (a + b) % P
  {
    if a + b < P then a + b else a + b - P
  }

  /** Multiplication modulo P: 1 is its identity and 0 absorbs. */
  function Mul(a: Fe, b: Fe): (r: Fe)
    ensures a == 1 ==> r == b
    ensures b == 1 ==> r == a
    ensures a == 0 || b == 0 ==> r == 0
  {
    (a * b) % P
  }

  /** The additive inverse. */
  function Neg(a: Fe): (r: Fe)
    ensures Add(a, r) == 0
    ensures r == 0 <==> a == 0
  {
    if a == 0 then 0 else P - a
  }

  /** The field's -1 is the integer P - 1, as it is printed for the matrices. */
  lemma MinusOneIsPMinusOne()
    ensures Neg(1) == P - 1 && FromInt(-1) == P - 1
  {
  }

  /** Multiplying by the stored -1 negates. */
  lemma MulMinusOne(a: Fe)
    ensures Mul(P - 1, a) == Neg(a)
  {
    if a != 0 {
      assert (P - 1) * a == P * (a - 1) + (P - a);
    }
  }
}
