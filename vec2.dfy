/** The 2D vector of the game model (model/Vec2.hpp, model/Vec2.cpp).
    `Vec2` is the value; `Vec2Var` is a Vec2 variable for the operations the
    source performs in place (`+=`, `norm`, `mul`, `div`, `rotate`). */
module Vectors {
  import opened Base
  import opened Streams

  datatype Vec2 = Vec2(x: real, y: real) {

    /** `writeTo`: `x`, then `y`, as doubles. */
    function Encode(): seq<Token> {
      [DoubleToken(x), DoubleToken(y)]
    }

    /** `readFrom`: two doubles, `x` first. */
    static function Decode(s: seq<Token>, p: nat): Option<Decoded<Vec2>> {
      var x :- ReadDoubleAt(s, p);
      var y :- ReadDoubleAt(s, x.next);
      Some(Decoded(Vec2(x.value, y.value), y.next))
    }

    method WriteTo(out: OutputStream)
      modifies out
      ensures out.written == old(out.written) + Encode()
    {
      out.WriteDouble(x);
      out.WriteDouble(y);
    }

    static method ReadFrom(inp: InputStream) returns (r: Option<Vec2>)
      modifies inp
      ensures Agrees(r, Decode(inp.tokens, old(inp.pos)), inp.pos)
    {
      var x := inp.ReadDouble();
      if x.None? {
        return None;
      }
      var y := inp.ReadDouble();
      if y.None? {
        return None;
      }
      r := Some(Vec2(x.value, y.value));
    }

    function Dot(v: Vec2): real {
      x * v.x + y * v.y
    }

    function Cross(v: Vec2): real {
      x * v.y - y * v.x
    }

    function Plus(v: Vec2): Vec2 {
      Vec2(x + v.x, y + v.y)
    }

    function Minus(v: Vec2): Vec2 {
      Vec2(x - v.x, y - v.y)
    }

    /** `operator*` and `mul`: both components scaled by `s`. */
    function Times(s: real): Vec2 {
      Vec2(s * x, s * y)
    }

    /** `div`: both components divided by `s`. */
    function Over(s: real): Vec2
      requires s != 0.0
    {
      Vec2(x / s, y / s)
    }

    function LenSquared(): (r: real)
      ensures 0.0 <= r
    {
      SquaresNonNegative(x, y);
      x * x + y * y
    }

    function DistToSquared(v: Vec2): (r: real)
      ensures 0.0 <= r
      ensures this == v ==> r == 0.0
    {
      Minus(v).LenSquared()
    }

    function DistTo(v: Vec2, sqrt: real -> real): (r: real)
      requires IsSqrt(sqrt)
      ensures 0.0 <= r && r * r == DistToSquared(v)
    {
      sqrt(DistToSquared(v))
    }

    function Len(sqrt: real -> real): (r: real)
      requires IsSqrt(sqrt)
      ensures 0.0 <= r && r * r == LenSquared()
      ensures 0.0 < LenSquared() ==> 0.0 < r
    {
      sqrt(LenSquared())
    }

    /** `norm`: divides both components by the length. The source has no
        guard for the zero vector, so its callers must not pass one. */
    function Normalized(sqrt: real -> real): (r: Vec2)
      requires IsSqrt(sqrt) && 0.0 < LenSquared()
      ensures r.LenSquared() == 1.0
      ensures r.Times(Len(sqrt)) == this
    {
      var l := Len(sqrt);
      NormalizedHasUnitLength(this, l);
      Over(l)
    }

    /** `rotate` by `angle` degrees; the library cosine and sine are
        parameters. */
    function Rotated(angle: real, cos: real -> real, sin: real -> real): Vec2 {
      var c, s := cos(angle * Pi / 180.0), sin(angle * Pi / 180.0);
      Vec2(x * c - y * s, x * s + y * c)
    }
  }

  /** The default constructor `Vec2()`. */
  const Zero: Vec2 := Vec2(0.0, 0.0)

  /** Reading back what `writeTo` wrote restores the vector and consumes
      exactly its two doubles. */
  lemma DecodeEncode(v: Vec2, s: seq<Token>, p: nat)
    requires At(s, p, v.Encode())
    ensures Vec2.Decode(s, p) == Some(Decoded(v, p + |v.Encode()|))
    ensures |v.Encode()| == 2
  {
    AtSuffix(s, p, v.Encode(), 0);
    AtSuffix(s, p, v.Encode(), 1);
  }

  lemma NormalizedHasUnitLength(v: Vec2, l: real)
    requires 0.0 < l && l * l == v.LenSquared()
    ensures v.Over(l).LenSquared() == 1.0
    ensures v.Over(l).Times(l) == v
  {
    UnitLength(v.x, v.y, l);
  }

  /** Dividing both components by the length leaves a unit vector. */
  lemma UnitLength(vx: real, vy: real, l: real)
    requires 0.0 < l && l * l == vx * vx + vy * vy
    ensures (vx / l) * (vx / l) + (vy / l) * (vy / l) == 1.0
  {
    var k := 1.0 / l;
    assert vx / l == k * vx;
    assert vy / l == k * vy;
    assert k * l == 1.0;
    calc {
      (vx / l) * (vx / l) + (vy / l) * (vy / l);
      (k * vx) * (k * vx) + (k * vy) * (k * vy);
      (k * k) * (vx * vx + vy * vy);
      (k * k) * (l * l);
      (k * l) * (k * l);
      1.0;
    }
  }

  /** The coefficients of `|c0 + t v|^2 - radius^2` as a polynomial in `t`. */
  function Quadratic(c0: Vec2, v: Vec2, radius: real): (r: (real, real, real))
    ensures 0.0 <= r.0
  {
    SquaresNonNegative(v.x, v.y);
    (v.x * v.x + v.y * v.y,
     2.0 * c0.x * v.x + 2.0 * c0.y * v.y,
     c0.x * c0.x + c0.y * c0.y - radius * radius)
  }

  /** The squared length of `c + t v` as a quadratic in `t`. */
  lemma MotionLenSquared(c: Vec2, v: Vec2, t: real)
    ensures c.Plus(v.Times(t)).LenSquared()
         == (v.x * v.x + v.y * v.y) * t * t + (2.0 * c.x * v.x + 2.0 * c.y * v.y) * t + (c.x * c.x + c.y * c.y)
  {
    ExpandMotion(c.x, c.y, v.x, v.y, t);
  }

  lemma ExpandMotion(cx: real, cy: real, vx: real, vy: real, t: real)
    ensures (cx + t * vx) * (cx + t * vx) + (cy + t * vy) * (cy + t * vy)
         == (vx * vx + vy * vy) * t * t + (2.0 * cx * vx + 2.0 * cy * vy) * t + (cx * cx + cy * cy)
  {
  }

  lemma DotCommutes(a: Vec2, b: Vec2)
    ensures a.Dot(b) == b.Dot(a)
  {
  }

  lemma DotSelfIsLenSquared(a: Vec2)
    ensures a.Dot(a) == a.LenSquared() && 0.0 <= a.Dot(a)
  {
  }

  lemma CrossAnticommutes(a: Vec2, b: Vec2)
    ensures a.Cross(b) == -b.Cross(a)
    ensures a.Cross(a) == 0.0
  {
  }

  lemma PlusMinusCancel(a: Vec2, b: Vec2)
    ensures a.Plus(b).Minus(b) == a
    ensures a.Minus(b).Plus(b) == a
  {
  }

  lemma TimesLaws(a: Vec2, b: Vec2, s: real, t: real)
    ensures a.Times(1.0) == a
    ensures a.Times(0.0) == Zero
    ensures a.Plus(b).Times(s) == a.Times(s).Plus(b.Times(s))
    ensures a.Times(s).Times(t) == a.Times(s * t)
  {
  }

  /** `mul(s)` followed by `div(s)` restores the vector. */
  lemma TimesOverCancel(a: Vec2, s: real)
    requires s != 0.0
    ensures a.Times(s).Over(s) == a
  {
  }

  lemma DistToSquaredSymmetric(a: Vec2, b: Vec2)
    ensures a.DistToSquared(b) == b.DistToSquared(a)
  {
  }

  /** The distance is symmetric. */
  lemma DistToSymmetric(a: Vec2, b: Vec2, sqrt: real -> real)
    requires IsSqrt(sqrt)
    ensures a.DistTo(b, sqrt) == b.DistTo(a, sqrt)
  {
    DistToSquaredSymmetric(a, b);
  }

  /** A point is at distance zero from itself. */
  lemma DistToSelf(b: Vec2, sqrt: real -> real)
    requires IsSqrt(sqrt)
    ensures b.DistTo(b, sqrt) == 0.0
  {
    assert b.DistToSquared(b) == 0.0;
    SqrtZero(sqrt);
  }

  /** The distance is the length of the difference vector. */
  lemma DistToIsLen(a: Vec2, b: Vec2, sqrt: real -> real)
    requires IsSqrt(sqrt)
    ensures a.DistTo(b, sqrt) == a.Minus(b).Len(sqrt)
  {
  }

  /** With sin^2 + cos^2 = 1, `rotate` keeps the length. */
  lemma RotatedKeepsLength(a: Vec2, angle: real, cos: real -> real, sin: real -> real)
    requires IsSineCosine(sin, cos)
    ensures a.Rotated(angle, cos, sin).LenSquared() == a.LenSquared()
  {
    var c, s := cos(angle * Pi / 180.0), sin(angle * Pi / 180.0);
    var r := a.Rotated(angle, cos, sin);
    assert s * s + c * c == 1.0;
    calc {
      r.x * r.x + r.y * r.y;
      (a.x * c - a.y * s) * (a.x * c - a.y * s) + (a.x * s + a.y * c) * (a.x * s + a.y * c);
      a.x * a.x * (c * c + s * s) + a.y * a.y * (s * s + c * c);
      a.x * a.x + a.y * a.y;
    }
  }

  /** A `Vec2` variable: the source's in-place operations. Each returns the
      object itself, as the C++ methods return `*this`. */
  class Vec2Var {
    var x: real
    var y: real

    function Value(): Vec2
      reads this
    {
      Vec2(x, y)
    }

    /** `Vec2()`: the origin. */
    constructor ()
      ensures Value() == Zero
    {
      x, y := 0.0, 0.0;
    }

    constructor Of(v: Vec2)
      ensures Value() == v
    {
      x, y := v.x, v.y;
    }

    /** `operator+=`; `v` may be this very variable. */
    method AddAssign(v: Vec2Var) returns (self: Vec2Var)
      modifies this
      ensures self == this
      ensures Value() == old(Value()).Plus(old(v.Value()))
      ensures v != this ==> v.Value() == old(v.Value())
    {
      x := x + v.x;
      y := y + v.y;
      self := this;
    }

    method Norm(sqrt: real -> real) returns (self: Vec2Var)
      requires IsSqrt(sqrt) && 0.0 < Value().LenSquared()
      modifies this
      ensures self == this
      ensures Value() == old(Value()).Normalized(sqrt)
    {
      var l := Value().Len(sqrt);
      x := x / l;
      y := y / l;
      self := this;
    }

    method Mul(s: real) returns (self: Vec2Var)
      modifies this
      ensures self == this
      ensures Value() == old(Value()).Times(s)
    {
      x := x * s;
      y := y * s;
      self := this;
    }

    method Div(s: real) returns (self: Vec2Var)
      requires s != 0.0
      modifies this
      ensures self == this
      ensures Value() == old(Value()).Over(s)
    {
      x := x / s;
      y := y / s;
      self := this;
    }

    method Rotate(angle: real, cos: real -> real, sin: real -> real) returns (self: Vec2Var)
      modifies this
      ensures self == this
      ensures Value() == old(Value()).Rotated(angle, cos, sin)
    {
      var newX := x * cos(angle * Pi / 180.0) - y * sin(angle * Pi / 180.0);
      var newY := x * sin(angle * Pi / 180.0) + y * cos(angle * Pi / 180.0);
      x := newX;
      y := newY;
      self := this;
    }

    /** `clone`: an equal copy that shares nothing with this variable. */
    method Clone() returns (c: Vec2Var)
      ensures fresh(c) && c.Value() == Value()
    {
      c := new Vec2Var.Of(Value());
    }
  }
}
