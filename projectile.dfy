/** A weapon projectile (model/Projectile.cpp): its binary encoding and the
    tests the bot uses to decide whether it meets a unit or a circle. */
module Projectiles {
  import opened Base
  import opened Streams
  import opened Vectors
  import opened Rays
  import opened Rules
  import opened Units

  /** The seven serialised fields, then `destroyed`, which is never
      serialised and starts false. */
  datatype Projectile = Projectile(
    id: int,
    weaponTypeIndex: int,
    shooterId: int,
    shooterPlayerId: int,
    position: Vec2,
    velocity: Vec2,
    lifeTime: real,
    destroyed: bool)
  {
    /** `writeTo`: four ints, the two vectors, then the lifetime. */
    function Encode(): seq<Token> {
      [IntToken(id), IntToken(weaponTypeIndex), IntToken(shooterId), IntToken(shooterPlayerId)]
      + position.Encode() + velocity.Encode() + [DoubleToken(lifeTime)]
    }

    /** `readFrom`: the fields in the same order; the projectile is not
        destroyed. */
    static function Decode(s: seq<Token>, p: nat): Option<Decoded<Projectile>> {
      var id :- ReadIntAt(s, p);
      var weaponTypeIndex :- ReadIntAt(s, id.next);
      var shooterId :- ReadIntAt(s, weaponTypeIndex.next);
      var shooterPlayerId :- ReadIntAt(s, shooterId.next);
      var position :- Vec2.Decode(s, shooterPlayerId.next);
      var velocity :- Vec2.Decode(s, position.next);
      var lifeTime :- ReadDoubleAt(s, velocity.next);
      Some(Decoded(Projectile(id.value, weaponTypeIndex.value, shooterId.value, shooterPlayerId.value,
                              position.value, velocity.value, lifeTime.value, false),
                   lifeTime.next))
    }

    method WriteTo(out: OutputStream)
      modifies out
      ensures out.written == old(out.written) + Encode()
    {
      out.WriteInt(id);
      out.WriteInt(weaponTypeIndex);
      out.WriteInt(shooterId);
      out.WriteInt(shooterPlayerId);
      position.WriteTo(out);
      velocity.WriteTo(out);
      out.WriteDouble(lifeTime);
    }

    static method ReadFrom(inp: InputStream) returns (r: Option<Projectile>)
      modifies inp
      ensures Agrees(r, Decode(inp.tokens, old(inp.pos)), inp.pos)
    {
      var id := inp.ReadInt();
      if id.None? { return None; }
      var weaponTypeIndex := inp.ReadInt();
      if weaponTypeIndex.None? { return None; }
      var shooterId := inp.ReadInt();
      if shooterId.None? { return None; }
      var shooterPlayerId := inp.ReadInt();
      if shooterPlayerId.None? { return None; }
      var position := Vec2.ReadFrom(inp);
      if position.None? { return None; }
      var velocity := Vec2.ReadFrom(inp);
      if velocity.None? { return None; }
      var lifeTime := inp.ReadDouble();
      if lifeTime.None? { return None; }
      r := Some(Projectile(id.value, weaponTypeIndex.value, shooterId.value, shooterPlayerId.value,
                           position.value, velocity.value, lifeTime.value, false));
    }

    /** The projectile's path as a ray. Its velocity is normalised without a
        guard, so a projectile at rest has no path. */
    function Path(sqrt: real -> real): (r: Ray)
      requires IsSqrt(sqrt) && 0.0 < velocity.LenSquared()
      ensures r.origin == position && r.dir.LenSquared() == 1.0
    {
      MakeRay(position, velocity, sqrt)
    }

    /** `intersectCircle`: the path meets the circle. In particular a circle
        around the projectile's current position is always met. */
    predicate IntersectCircle(center: Vec2, radius: real, sqrt: real -> real)
      requires IsSqrt(sqrt) && 0.0 < velocity.LenSquared()
    {
      Path(sqrt).IntersectsCircle(center, radius)
    }

    /** `intersectUnit`: the path meets the unit's circle and the projectile
        can cover the distance to its edge within its remaining lifetime. */
    function IntersectUnit(unit: Unit, c: Constants, sqrt: real -> real): (r: bool)
      requires IsSqrt(sqrt) && 0.0 < velocity.LenSquared() && c.Valid() && c.IsWeapon(weaponTypeIndex)
      ensures r ==> Path(sqrt).IntersectsCircle(unit.position, c.unitRadius)
      ensures r <==> && Path(sqrt).IntersectsCircle(unit.position, c.unitRadius)
                     && position.DistTo(unit.position, sqrt) - c.unitRadius
                        <= c.weapons[weaponTypeIndex].projectileSpeed * lifeTime
    {
      var speed := c.weapons[weaponTypeIndex].projectileSpeed;
      assert c.weapons[weaponTypeIndex] in c.weapons;
      if !Path(sqrt).IntersectsCircle(unit.position, c.unitRadius) then false
      else
        var distToUnit := position.DistTo(unit.position, sqrt) - c.unitRadius;
        DivideAtMost(distToUnit, speed, lifeTime);
        !(distToUnit / speed > lifeTime)
    }

    /** The quadratic `hasHit(unit)` solves: the squared distance between
        projectile and unit after time `t`, less the unit's squared radius, as
        `a t^2 + b t + c`. */
    function Relative(unit: Unit): (r: (real, real, real))
      ensures 0.0 <= r.0
    {
      Quadratic(position.Minus(unit.position), velocity.Minus(unit.velocity), unit.unitRadius)
    }

    /** The projectile touches the unit's circle at time `t` from now. */
    predicate Touches(unit: Unit, t: real) {
      position.Minus(unit.position).Plus(velocity.Minus(unit.velocity).Times(t)).LenSquared()
      == unit.unitRadius * unit.unitRadius
    }

    /** `t` is the last moment the projectile touches the unit's circle: it
        touches then and never afterwards. */
    ghost predicate LastContact(unit: Unit, t: real) {
      Touches(unit, t) && forall s :: t < s ==> !Touches(unit, s)
    }

    /** `hasHit(unit)` as written. The larger root is divided by `a` without
        a guard: when the projectile moves exactly with the unit, `a`, `b` and
        the discriminant are zero, the root is 0/0 (NaN), every comparison
        with it is false, and the test reports a hit. Otherwise it reports a
        hit exactly when the projectile leaves the unit's circle within the
        coming tick and the projectile's lifetime. */
    function HasHitAsWritten(unit: Unit, c: Constants, sqrt: real -> real): (r: bool)
      requires IsSqrt(sqrt) && c.Valid()
      ensures r <==> Relative(unit).0 == 0.0 || exists t :: InWindow(t, c) && LastContact(unit, t)
    {
      var (a, b, cc) := Relative(unit);
      var d := Discriminant(a, b, cc);
      SquareNonNegative(b);
      LastContactWindow(this, unit, c, sqrt);
      if d < 0.0 then false
      else if a == 0.0 then true
      else InWindow(LargerRoot(a, b, d, sqrt), c)
    }

    /** `hasHit(unit)` with the evidently intended guard: a projectile that
        moves with the unit never reaches it. Otherwise the larger root of the
        quadratic, the moment the projectile leaves the unit's circle, must
        fall within the coming tick and the projectile's lifetime; a
        projectile that enters the circle during the tick but leaves it
        later is no hit. */
    function HasHit(unit: Unit, c: Constants, sqrt: real -> real): (r: bool)
      requires IsSqrt(sqrt) && c.Valid()
      ensures r <==> Relative(unit).0 != 0.0 && exists t :: InWindow(t, c) && LastContact(unit, t)
    {
      var (a, b, cc) := Relative(unit);
      var d := Discriminant(a, b, cc);
      LastContactWindow(this, unit, c, sqrt);
      if d < 0.0 || a == 0.0 then false
      else InWindow(LargerRoot(a, b, d, sqrt), c)
    }

    /** The root lies in the coming tick and within the lifetime. */
    predicate InWindow(t: real, c: Constants)
      requires c.Valid()
    {
      !(t < 0.0 || t > 1.0 / c.ticksPerSecond || t > lifeTime)
    }
  }

  /** For a positive divisor, `x / s` exceeds `l` exactly when `x` exceeds
      `s l`. */
  lemma DivideAtMost(x: real, s: real, l: real)
    requires 0.0 < s
    ensures x / s > l <==> x > s * l
  {
    var q := x / s;
    assert q * s == x;
    if q > l {
      MulPositive(q - l, s);
    } else {
      MulNonNegative(l - q, s);
    }
  }

  /** The larger root solves the quadratic, so the projectile touches the
      unit's circle then. */
  lemma LargerRootContact(p: Projectile, unit: Unit, s: real, t: real)
    requires 0.0 < p.Relative(unit).0
    requires s * s == Discriminant(p.Relative(unit).0, p.Relative(unit).1, p.Relative(unit).2)
    requires 2.0 * p.Relative(unit).0 * t + p.Relative(unit).1 == s
    ensures p.Touches(unit, t)
  {
    var (a, b, cc) := p.Relative(unit);
    QuadraticRoot(a, b, cc, s, t);
    MotionLenSquared(p.position.Minus(unit.position), p.velocity.Minus(unit.velocity), t);
  }

  /** The projectile touches the unit's circle exactly at the roots of the
      quadratic `hasHit` builds. */
  lemma TouchesIsRoot(p: Projectile, unit: Unit, t: real)
    ensures var (a, b, cc) := p.Relative(unit);
            p.Touches(unit, t) <==> a * t * t + b * t + cc == 0.0
  {
    MotionLenSquared(p.position.Minus(unit.position), p.velocity.Minus(unit.velocity), t);
  }

  /** With relative motion, the larger root is the projectile's last contact
      with the unit's circle, and there is none when the discriminant is
      negative; so some last contact lies in the window exactly when the
      discriminant is non-negative and the larger root lies in it. */
  lemma LastContactWindow(p: Projectile, unit: Unit, c: Constants, sqrt: real -> real)
    requires IsSqrt(sqrt) && c.Valid()
    ensures var (a, b, cc) := p.Relative(unit);
            var d := Discriminant(a, b, cc);
            0.0 < a ==>
              ((exists t :: p.InWindow(t, c) && p.LastContact(unit, t))
               <==> 0.0 <= d && p.InWindow(LargerRoot(a, b, d, sqrt), c))
  {
    var (a, b, cc) := p.Relative(unit);
    var d := Discriminant(a, b, cc);
    if 0.0 < a {
      if 0.0 <= d {
        var big := LargerRoot(a, b, d, sqrt);
        LargerRootFormula(a, b, sqrt(d), big);
        LargerRootContact(p, unit, sqrt(d), big);
        forall s | big < s
          ensures !p.Touches(unit, s)
        {
          TouchesIsRoot(p, unit, s);
          NoLaterRoot(a, b, cc, sqrt(d), big, s);
        }
        assert p.LastContact(unit, big);
        forall t | p.LastContact(unit, t)
          ensures t == big
        {
          if big < t {
            TouchesIsRoot(p, unit, t);
            NoLaterRoot(a, b, cc, sqrt(d), big, t);
          }
        }
      } else {
        forall t
          ensures !p.Touches(unit, t)
        {
          TouchesIsRoot(p, unit, t);
          if a * t * t + b * t + cc == 0.0 {
            RootDiscriminant(a, b, cc, t);
          }
        }
      }
    }
  }

  /** Reading back what `writeTo` wrote restores the seven serialised fields
      in order; `destroyed` comes back false. */
  lemma {:induction false} DecodeEncode(p: Projectile, s: seq<Token>, k: nat)
    requires At(s, k, p.Encode())
    ensures Projectile.Decode(s, k) == Some(Decoded(p.(destroyed := false), k + |p.Encode()|))
  {
    var e0 := [IntToken(p.id), IntToken(p.weaponTypeIndex), IntToken(p.shooterId), IntToken(p.shooterPlayerId)];
    var e3 := [DoubleToken(p.lifeTime)];
    AtSplit(s, k, e0 + p.position.Encode() + p.velocity.Encode(), e3);
    AtSplit(s, k, e0 + p.position.Encode(), p.velocity.Encode());
    AtSplit(s, k, e0, p.position.Encode());
    AtSuffix(s, k, e0, 0);
    AtSuffix(s, k, e0, 1);
    AtSuffix(s, k, e0, 2);
    AtSuffix(s, k, e0, 3);
    Vectors.DecodeEncode(p.position, s, k + 4);
    Vectors.DecodeEncode(p.velocity, s, k + 6);
    AtSuffix(s, k + 8, e3, 0);
  }

  /** A circle that already contains the projectile is met by its path. */
  lemma IntersectCircleAtPosition(p: Projectile, center: Vec2, radius: real, sqrt: real -> real)
    requires IsSqrt(sqrt) && 0.0 < p.velocity.LenSquared()
    requires p.position.DistToSquared(center) <= radius * radius
    ensures p.IntersectCircle(center, radius, sqrt)
  {
    DistanceSqBounds(p.Path(sqrt), center);
  }

  /** `hasHit(unit)` sees the unit only through its position, velocity and
      radius. */
  lemma HasHitDependsOn(p: Projectile, u1: Unit, u2: Unit, c: Constants, sqrt: real -> real)
    requires IsSqrt(sqrt) && c.Valid()
    requires u1.position == u2.position && u1.velocity == u2.velocity && u1.unitRadius == u2.unitRadius
    ensures p.HasHitAsWritten(u1, c, sqrt) == p.HasHitAsWritten(u2, c, sqrt)
    ensures p.HasHit(u1, c, sqrt) == p.HasHit(u2, c, sqrt)
  {
    assert p.Relative(u1) == p.Relative(u2);
  }

  /** A projectile moving exactly with a unit it is not touching: `hasHit`
      as written reports a hit, although the projectile never touches the
      unit at any time; the guarded test reports none. */
  lemma {:induction false} CoMovingHit(p: Projectile, u: Unit, c: Constants, sqrt: real -> real)
    requires IsSqrt(sqrt) && c.Valid()
    requires p.velocity == u.velocity
    requires u.unitRadius * u.unitRadius < p.position.DistToSquared(u.position)
    ensures p.HasHitAsWritten(u, c, sqrt)
    ensures !p.HasHit(u, c, sqrt)
    ensures forall t :: !p.Touches(u, t)
  {
    var v := p.velocity.Minus(u.velocity);
    assert v == Zero;
    assert p.Relative(u).0 == 0.0 && p.Relative(u).1 == 0.0;
    AtRestAsWritten(p, u, c, sqrt);
    forall t
      ensures !p.Touches(u, t)
    {
      assert v.Times(t) == Zero;
      assert p.position.Minus(u.position).Plus(v.Times(t)) == p.position.Minus(u.position);
    }
  }

  /** With no relative motion the discriminant is zero and `hasHit` as
      written answers true, whatever the distance. */
  lemma AtRestAsWritten(p: Projectile, u: Unit, c: Constants, sqrt: real -> real)
    requires IsSqrt(sqrt) && c.Valid()
    requires p.Relative(u).0 == 0.0 && p.Relative(u).1 == 0.0
    ensures p.HasHitAsWritten(u, c, sqrt)
  {
    var (a, b, cc) := p.Relative(u);
    assert Discriminant(a, b, cc) == 0.0;
  }

  /** A unit of radius 1 standing at the origin. */
  function StandingUnit(): (u: Unit)
    ensures u.position == Zero && u.velocity == Zero && u.unitRadius == 1.0
  {
    Unit(0, 0, 100.0, 0.0, 0, Zero, None, Zero, Vec2(1.0, 0.0), 0.0, None, 0, None, 0, [], 0,
         1.0, 0.0, 0.0, 0.0, Zero)
  }

  /** A projectile resting 100 away from the standing unit. */
  function RestingProjectile(): (p: Projectile)
    ensures p.position == Vec2(100.0, 0.0) && p.velocity == Zero
  {
    Projectile(1, 0, 2, 3, Vec2(100.0, 0.0), Zero, 1.0, false)
  }

  /** The resting projectile and the standing unit are such a pair. */
  lemma RestingIsCoMoving()
    ensures RestingProjectile().velocity == StandingUnit().velocity
    ensures StandingUnit().unitRadius * StandingUnit().unitRadius
            < RestingProjectile().position.DistToSquared(StandingUnit().position)
  {
    var p := RestingProjectile();
    var u := StandingUnit();
    var d := p.position.Minus(u.position);
    assert d == Vec2(100.0, 0.0);
    assert d.LenSquared() == 10000.0;
  }
}
