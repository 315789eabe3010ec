/** The prime field `F = fields.bn128_FQ` of src/machine/machine.py:7 and
    src/autowitgen/syntax.py:6: integers reduced modulo the base-field prime
    of the BN254 (alt_bn128) curve. An element is an integer in [0, P). */
module Field {

  /** The base-field modulus of BN254. */
  const P: int := 0x30644e72e131a029b85045b68181585d97816a916871ca8d3c208c16d87cfd47

  /** A literal `Num` carries a reduced field element. */
  type Element = x: int | 0 <= x < P

  predicate IsElement(x: int) {
    0 <= x < P
  }

  /** Two integers that stand for the same field element. */
  predicate Congruent(x: int, y: int) {
    (x - y) % P == 0
  }

  function Add(a: int, b: int): (r: int)
    ensures IsElement(r) && Congruent(r, a + b)
  {
    (a + b) % P
  }

  function Sub(a: int, b: int): (r: int)
    ensures IsElement(r) && Congruent(r, a - b)
  {
    (a - b) % P
  }

  function Mul(a: int, b: int): (r: int)
    ensures IsElement(r) && Congruent(r, a * b)
  {
    (a * b) % P
  }

  /** Field negation: the operand plus the result is the additive identity. */
  function Neg(a: int): (r: int)
    ensures IsElement(r) && Congruent(a + r, 0)
  {
    (-a) % P
  }

  /** Reduction of a non-negative integer into the field, as `F(n)` does. */
  function Reduce(n: int): (r: int)
    ensures IsElement(r) && Congruent(r, n)
    ensures IsElement(n) ==> r == n
  {
    n % P
  }

  lemma NegNeg(a: int)
    requires IsElement(a)
    ensures Neg(Neg(a)) == a
  {
    if a != 0 {
      assert Neg(a) == P - a;
    }
  }

  lemma AddNegIsZero(a: int)
    ensures Add(a, Neg(a)) == 0
  {
  }

  lemma SubIsAddNeg(a: int, b: int)
    ensures Sub(a, b) == Add(a, Neg(b))
  {
  }

  lemma MulOne(a: int)
    requires IsElement(a)
    ensures Mul(a, 1) == a
  {
  }
}
