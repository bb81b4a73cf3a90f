/** Shared building blocks: an Option type, the library functions the bot calls
    (square root, cosine, sine) as parameters with the laws the proofs need, and
    the C++ conversions from double to int that the bot's arithmetic performs. */
module Base {

  datatype Option<+T> = None | Some(value: T) {
    predicate IsFailure() {
      None?
    }

    function PropagateFailure<U>(): Option<U>
      requires None?
    {
      None
    }

    function Extract(): T
      requires Some?
    {
      value
    }
  }

  /** `sqrt` agrees with the C library square root on every non-negative
      argument: it is non-negative and squares back to its argument. */
  ghost predicate IsSqrt(sqrt: real -> real) {
    forall x: real :: 0.0 <= x ==> 0.0 <= sqrt(x) && sqrt(x) * sqrt(x) == x
  }

  /** `cos` never leaves [-1, 1]. */
  ghost predicate IsCosine(cos: real -> real) {
    forall a: real :: -1.0 <= cos(a) <= 1.0
  }

  /** `sin` and `cos` satisfy the Pythagorean identity at every angle. */
  ghost predicate IsSineCosine(sin: real -> real, cos: real -> real) {
    forall a: real :: sin(a) * sin(a) + cos(a) * cos(a) == 1.0
  }

  /** `M_PI` as a double. */
  const Pi: real := 3.141592653589793

  function Abs(x: real): (r: real)
    ensures 0.0 <= r && (r == x || r == -x)
  {
    if x < 0.0 then -x else x
  }

  lemma MulPositive(a: real, b: real)
    requires 0.0 < a && 0.0 < b
    ensures 0.0 < a * b
  {
  }

  lemma SquareNonNegative(a: real)
    ensures 0.0 <= a * a
  {
    if a < 0.0 {
      assert (-a) * (-a) == a * a;
    }
  }

  lemma SquaresNonNegative(a: real, b: real)
    ensures 0.0 <= a * a + b * b
  {
    SquareNonNegative(a);
    SquareNonNegative(b);
  }

  /** Squaring is strictly increasing on the non-negative numbers. */
  lemma SquareLess(r: real, s: real)
    requires 0.0 <= r < s
    ensures r * r < s * s
  {
    MulPositive(s - r, s + r);
    assert (s - r) * (s + r) == s * s - r * r;
  }

  /** A non-negative number is determined by its square. */
  lemma SquareInjective(r: real, s: real)
    requires 0.0 <= r && 0.0 <= s && r * r == s * s
    ensures r == s
  {
    if r < s {
      SquareLess(r, s);
    } else if s < r {
      SquareLess(s, r);
    }
  }

  /** The square root of a square is the non-negative base. */
  lemma SqrtOfSquare(sqrt: real -> real, r: real)
    requires IsSqrt(sqrt) && 0.0 <= r
    ensures sqrt(r * r) == r
  {
    SquareNonNegative(r);
    SquareInjective(sqrt(r * r), r);
  }

  lemma SqrtZero(sqrt: real -> real)
    requires IsSqrt(sqrt)
    ensures sqrt(0.0) == 0.0
  {
    SqrtOfSquare(sqrt, 0.0);
    assert 0.0 * 0.0 == 0.0;
  }

  /** Square root is monotone. */
  lemma SqrtMonotone(sqrt: real -> real, a: real, b: real)
    requires IsSqrt(sqrt) && 0.0 <= a <= b
    ensures sqrt(a) <= sqrt(b)
  {
    var ra, rb := sqrt(a), sqrt(b);
    if rb < ra {
      SquareLess(rb, ra);
    }
  }

  lemma MulNonNegative(a: real, b: real)
    requires 0.0 <= a && 0.0 <= b
    ensures 0.0 <= a * b
  {
    if 0.0 < a && 0.0 < b {
      MulPositive(a, b);
    }
  }

  lemma MulNonPositive(a: real, q: real)
    requires 0.0 < a && q <= 0.0
    ensures a * q <= 0.0
  {
    if q < 0.0 {
      MulPositive(a, -q);
    }
  }

  function Discriminant(a: real, b: real, c: real): real {
    b * b - 4.0 * a * c
  }

  /** `(-b - sqrt(d)) / 2.0 / a`. */
  function SmallerRoot(a: real, b: real, d: real, sqrt: real -> real): real
    requires a != 0.0
  {
    (-b - sqrt(d)) / 2.0 / a
  }

  /** `(-b + sqrt(d)) / 2.0 / a`. */
  function LargerRoot(a: real, b: real, d: real, sqrt: real -> real): real
    requires a != 0.0
  {
    (-b + sqrt(d)) / 2.0 / a
  }

  /** The quadratic formula's smaller root `t = (-b - s) / 2 / a`
      satisfies `2at + b = -s`. */
  lemma SmallerRootFormula(a: real, b: real, s: real, t: real)
    requires a != 0.0 && t == (-b - s) / 2.0 / a
    ensures 2.0 * a * t + b == -s
  {
    var k := 1.0 / a;
    assert a * k == 1.0;
    assert t == ((-b - s) / 2.0) * k;
    calc {
      2.0 * a * t + b;
      2.0 * a * (((-b - s) / 2.0) * k) + b;
      (-b - s) * (a * k) + b;
      -s;
    }
  }

  /** The larger root `t = (-b + s) / 2 / a` satisfies `2at + b = s`. */
  lemma LargerRootFormula(a: real, b: real, s: real, t: real)
    requires a != 0.0 && t == (-b + s) / 2.0 / a
    ensures 2.0 * a * t + b == s
  {
    var k := 1.0 / a;
    assert a * k == 1.0;
    assert t == ((-b + s) / 2.0) * k;
    calc {
      2.0 * a * t + b;
      2.0 * a * (((-b + s) / 2.0) * k) + b;
      (-b + s) * (a * k) + b;
      s;
    }
  }

  /** If `u` squares to the discriminant and `2at + b = u`, then `t` is a
      root of `a t^2 + b t + c`. */
  lemma QuadraticRoot(a: real, b: real, c: real, u: real, t: real)
    requires a != 0.0 && u * u == b * b - 4.0 * a * c && 2.0 * a * t + b == u
    ensures a * t * t + b * t + c == 0.0
  {
    assert (2.0 * a * t + b) * (2.0 * a * t + b) == b * b - 4.0 * a * c;
    assert 4.0 * a * (a * t * t + b * t + c) == 0.0;
  }

  /** For `a > 0` the quadratic is positive before its smaller root. */
  lemma NoEarlierRoot(a: real, b: real, c: real, s: real, t1: real, t: real)
    requires 0.0 < a && 0.0 <= s && s * s == b * b - 4.0 * a * c
    requires 2.0 * a * t1 + b == -s && t < t1
    ensures 0.0 < a * t * t + b * t + c
  {
    MulPositive(a, t1 - t);
    var w := 2.0 * a * t + b;
    assert w < -s;
    SquareLess(s, -w);
    assert (-w) * (-w) == w * w;
    assert 4.0 * a * (a * t * t + b * t + c) == w * w - (b * b - 4.0 * a * c);
    if a * t * t + b * t + c <= 0.0 {
      MulNonPositive(4.0 * a, a * t * t + b * t + c);
    }
  }

  /** For `a > 0` the quadratic is positive after its larger root. */
  lemma NoLaterRoot(a: real, b: real, c: real, s: real, t2: real, t: real)
    requires 0.0 < a && 0.0 <= s && s * s == b * b - 4.0 * a * c
    requires 2.0 * a * t2 + b == s && t2 < t
    ensures 0.0 < a * t * t + b * t + c
  {
    MulPositive(a, t - t2);
    var w := 2.0 * a * t + b;
    assert s < w;
    SquareLess(s, w);
    assert 4.0 * a * (a * t * t + b * t + c) == w * w - (b * b - 4.0 * a * c);
    if a * t * t + b * t + c <= 0.0 {
      MulNonPositive(4.0 * a, a * t * t + b * t + c);
    }
  }

  /** A root `t` of `a t^2 + b t + c` makes the discriminant the square of
      `2at + b`, so it is not negative. */
  lemma RootDiscriminant(a: real, b: real, c: real, t: real)
    requires a * t * t + b * t + c == 0.0
    ensures b * b - 4.0 * a * c == (2.0 * a * t + b) * (2.0 * a * t + b)
    ensures 0.0 <= b * b - 4.0 * a * c
  {
    assert (2.0 * a * t + b) * (2.0 * a * t + b) == 4.0 * a * (a * t * t + b * t + c) + b * b - 4.0 * a * c;
    SquareNonNegative(2.0 * a * t + b);
  }

  /** For `a > 0` and `c > 0` (positive at time 0), a root at a time
      `t0 >= 0` means the smaller root lies in `[0, t0]`. */
  lemma SmallerRootBetween(a: real, b: real, c: real, s: real, t1: real, t0: real)
    requires 0.0 < a && 0.0 < c && 0.0 <= s && s * s == b * b - 4.0 * a * c
    requires 2.0 * a * t1 + b == -s
    requires 0.0 <= t0 && a * t0 * t0 + b * t0 + c == 0.0
    ensures 0.0 <= t1 <= t0
  {
    if t0 < t1 {
      NoEarlierRoot(a, b, c, s, t1, t0);
    }
    RootDiscriminant(a, b, c, t0);
    var w := 2.0 * a * t0 + b;
    if w < 0.0 {
      assert (-w) * (-w) == w * w;
      SquareInjective(s, -w);
      assert 2.0 * a * (t0 - t1) == 0.0;
    } else {
      SquareInjective(s, w);
      assert 4.0 * a * c == (b + s) * (b - s);
      assert (b + s) * (b - s) == 4.0 * a * (a * (t1 * t0));
      assert c == a * (t1 * t0);
      PositiveFactor(t1 * t0, a);
      PositiveFactor(t1, t0);
    }
  }

  /** A positive product with a non-negative factor has a positive other
      factor. */
  lemma PositiveFactor(u: real, v: real)
    requires 0.0 < u * v && 0.0 <= v
    ensures 0.0 < u
  {
    if u <= 0.0 {
      MulNonNegative(-u, v);
    }
  }

  /** C++ conversion of a double to `int`: truncation toward zero. */
  function TruncToInt(r: real): (n: int)
    ensures 0.0 <= r ==> n as real <= r < n as real + 1.0
    ensures r < 0.0 ==> n as real - 1.0 < r <= n as real
  {
    if 0.0 <= r then r.Floor else -((-r).Floor)
  }

  /** C++ integer division, which truncates toward zero. */
  function TruncDiv(a: int, b: int): int
    requires 0 < b
  {
    if 0 <= a then a / b else -((-a) / b)
  }

  const IntMin: int := -0x8000_0000
  const IntMax: int := 0x7fff_ffff

  /** C++ conversion of an unsigned size to a 32-bit `int`: wrap-around modulo 2^32. */
  function WrapToInt32(n: nat): (r: int)
    ensures IntMin <= r <= IntMax
    ensures n <= IntMax ==> r == n
  {
    var m := n % 0x1_0000_0000;
    if m <= IntMax then m else m - 0x1_0000_0000
  }

  /** Overwriting the element just after a prefix. */
  lemma ReplaceNext<T>(done: seq<T>, rest: seq<T>, x: T)
    requires rest != []
    ensures (done + rest)[|done| := x] == (done + [x]) + rest[1..]
  {
  }
}
