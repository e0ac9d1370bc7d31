/** The ComplexNumber value type and its operators, over exact reals.
    The source computes in IEEE doubles; over `real` the algebraic laws
    below hold exactly, which is what the operators are meant to satisfy. */
module ComplexNumbers {

  datatype Complex = Complex(re: real, im: real)

  /** ComplexNumberConstants.Zero, One and I. */
  const Zero: Complex := Complex(0.0, 0.0)
  const One: Complex := Complex(1.0, 0.0)
  const I: Complex := Complex(0.0, 1.0)

  /** Products and squares of reals, kept behind names so that the proofs
      about them stay linear in these terms. */
  function Product(x: real, y: real): real {
    x * y
  }

  function Square(x: real): real {
    Product(x, x)
  }

  /** The constructor from a real and the implicit conversion from double:
      the imaginary part is zero. */
  function FromReal(x: real): (c: Complex)
    ensures c.re == x && c.im == 0.0
  {
    Complex(x, 0.0)
  }

  /** Multiplying by a converted real scales both parts. */
  lemma RealScales(x: real, d: Complex)
    ensures Mul(FromReal(x), d) == Complex(Product(x, d.re), Product(x, d.im))
  {
  }

  /** The copy constructor: the copy is the same value. */
  function Copy(c: Complex): (r: Complex)
    ensures r == c
  {
    Complex(c.re, c.im)
  }

  function Add(a: Complex, b: Complex): Complex {
    Complex(a.re + b.re, a.im + b.im)
  }

  function Sub(a: Complex, b: Complex): Complex {
    Complex(a.re - b.re, a.im - b.im)
  }

  function Neg(a: Complex): Complex {
    Complex(-a.re, -a.im)
  }

  function Mul(a: Complex, b: Complex): Complex {
    Complex(a.re * b.re - a.im * b.im, a.im * b.re + a.re * b.im)
  }

  /** Division of both parts by a real (the forward normalisation of the FFT). */
  function Scale(a: Complex, n: real): Complex
    requires n != 0.0
  {
    Complex(a.re / n, a.im / n)
  }

  lemma MulZero(w: Complex)
    ensures Mul(Zero, w) == Zero
  {
  }

  lemma ScaleUnits(x: real)
    requires x != 0.0
    ensures Scale(Zero, x) == Zero
    ensures Scale(One, x) == Complex(1.0 / x, 0.0)
  {
  }

  /** Re^2 + Im^2: never negative, and zero only for Zero. */
  function SquaredMagnitude(c: Complex): (r: real)
    ensures r >= 0.0
    ensures r == 0.0 <==> c == Zero
  {
    SumOfSquares(c.re, c.im);
    Square(c.re) + Square(c.im)
  }

  /** Power2: Re^2 - Im^2, the real part of the square. */
  function Power2(c: Complex): (r: real)
    ensures r == Mul(c, c).re
    ensures c.im == 0.0 ==> r == SquaredMagnitude(c)
    ensures c.re == 0.0 ==> r == -SquaredMagnitude(c)
  {
    Square(c.re) - Square(c.im)
  }

  /** `m` is the magnitude of `c`: the non-negative square root of its squared
      magnitude (the source takes Math.Sqrt, which the model does not compute). */
  predicate IsMagnitude(m: real, c: Complex) {
    m >= 0.0 && Square(m) == SquaredMagnitude(c)
  }

  /** The product is commutative, has One as identity, and I*I == -1. */
  lemma MulLaws(a: Complex, b: Complex)
    ensures Mul(a, b) == Mul(b, a)
    ensures Mul(a, One) == a && Mul(One, a) == a
    ensures Mul(a, Zero) == Zero
    ensures Mul(I, I) == Neg(One)
  {
  }

  /** Addition and subtraction are component-wise inverses. */
  lemma AddSubLaws(a: Complex, b: Complex)
    ensures Sub(Add(a, b), b) == a
    ensures Add(a, Neg(a)) == Zero
    ensures Sub(a, b) == Add(a, Neg(b))
    ensures Add(a, Zero) == a
    ensures Add(a, b) == Add(b, a)
  {
  }

  /** The product distributes over addition and subtraction. */
  lemma MulDistributes(a: Complex, b: Complex, c: Complex)
    ensures Mul(Add(a, b), c) == Add(Mul(a, c), Mul(b, c))
    ensures Mul(Sub(a, b), c) == Sub(Mul(a, c), Mul(b, c))
  {
    RealDistributes(a.re, b.re, c.re);
    RealDistributes(a.re, b.re, c.im);
    RealDistributes(a.im, b.im, c.re);
    RealDistributes(a.im, b.im, c.im);
  }

  lemma RealDistributes(x: real, y: real, z: real)
    ensures (x + y) * z == x * z + y * z
    ensures (x - y) * z == x * z - y * z
  {
  }

  /** The product is associative. */
  lemma MulAssociative(a: Complex, b: Complex, c: Complex)
    ensures Mul(Mul(a, b), c) == Mul(a, Mul(b, c))
  {
  }

  /** A magnitude is zero exactly when the value is Zero. */
  lemma MagnitudeZero(m: real, c: Complex)
    requires IsMagnitude(m, c)
    ensures m == 0.0 <==> c == Zero
  {
    if m != 0.0 {
      SquarePositive(m);
    }
  }

  /** Magnitudes are ordered as the squared magnitudes are, so comparing the
      spectrogram (squared magnitudes) is the same as comparing magnitudes. */
  lemma MagnitudeMonotone(m1: real, c1: Complex, m2: real, c2: Complex)
    requires IsMagnitude(m1, c1) && IsMagnitude(m2, c2)
    ensures m1 <= m2 <==> SquaredMagnitude(c1) <= SquaredMagnitude(c2)
    ensures m1 < m2 <==> SquaredMagnitude(c1) < SquaredMagnitude(c2)
    ensures m1 == m2 <==> SquaredMagnitude(c1) == SquaredMagnitude(c2)
  {
    if m1 < m2 {
      SquaresOrdered(m1, m2);
    } else if m2 < m1 {
      SquaresOrdered(m2, m1);
    }
  }

  lemma PositiveProduct(x: real, y: real)
    requires x > 0.0 && y > 0.0
    ensures Product(x, y) > 0.0
  {
  }

  lemma SquarePositive(x: real)
    requires x != 0.0
    ensures Square(x) > 0.0
  {
    if x < 0.0 {
      PositiveProduct(-x, -x);
      assert Square(x) == Square(-x);
    } else {
      PositiveProduct(x, x);
    }
  }

  lemma SumOfSquares(a: real, b: real)
    ensures Square(a) + Square(b) >= 0.0
    ensures Square(a) + Square(b) == 0.0 <==> a == 0.0 && b == 0.0
  {
    if a != 0.0 {
      SquarePositive(a);
    } else {
      assert Square(a) == 0.0;
    }
    if b != 0.0 {
      SquarePositive(b);
    } else {
      assert Square(b) == 0.0;
    }
  }

  lemma SquaresOrdered(x: real, y: real)
    requires 0.0 <= x < y
    ensures Square(x) < Square(y)
  {
    PositiveProduct(y - x, y);
    assert Square(y) - Product(x, y) == Product(y - x, y);
    if x > 0.0 {
      PositiveProduct(x, y - x);
      assert Product(x, y) - Square(x) == Product(x, y - x);
    } else {
      assert Square(x) == 0.0 && Product(x, y) == 0.0;
    }
  }
}
