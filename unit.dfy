/** A unit of the game (model/Unit.cpp): its binary encoding, the speed
    circle the bot derives from it, its velocity along a direction and its
    collision time with an obstacle. */
module Units {
  import opened Base
  import opened Streams
  import opened Vectors
  import opened Rules

  /** The serialised fields, in stream order, followed by the speed-circle
      fields that `calcSpeedCircle` computes and that are never serialised
      (their declaration is not part of this model; the model starts them at
      zero). */
  datatype Unit = Unit(
    id: int,
    playerId: int,
    health: real,
    shield: real,
    extraLives: int,
    position: Vec2,
    remainingSpawnTime: Option<real>,
    velocity: Vec2,
    direction: Vec2,
    aim: real,
    action: Option<Action>,
    healthRegenerationStartTick: int,
    weapon: Option<int>,
    nextShotTick: int,
    ammo: seq<int>,
    shieldPotions: int,
    unitRadius: real,
    maxForwardSpeed: real,
    maxBackwardSpeed: real,
    speedRadius: real,
    speedCenter: Vec2)
  {
    /** The unit as `readFrom` rebuilds it: the speed-circle fields at their
        initial values. */
    function Serialised(): Unit {
      this.(unitRadius := 0.0, maxForwardSpeed := 0.0, maxBackwardSpeed := 0.0,
            speedRadius := 0.0, speedCenter := Zero)
    }

    /** `writeTo`, in three runs of fields. The ammo count is written as
        `(int)ammo.size()`. */
    function Encode(): seq<Token> {
      EncodeHead() + EncodeMotion() + EncodeInventory()
    }

    function EncodeHead(): seq<Token> {
      [IntToken(id), IntToken(playerId), DoubleToken(health), DoubleToken(shield), IntToken(extraLives)]
      + position.Encode()
      + EncodeOptDouble(remainingSpawnTime)
    }

    function EncodeMotion(): seq<Token> {
      velocity.Encode() + direction.Encode() + [DoubleToken(aim)] + EncodeOptAction(action)
    }

    function EncodeInventory(): seq<Token> {
      [IntToken(healthRegenerationStartTick)]
      + EncodeOptInt(weapon)
      + [IntToken(nextShotTick)]
      + EncodeAmmo(ammo)
      + [IntToken(shieldPotions)]
    }

    /** `readFrom`. */
    static function Decode(s: seq<Token>, p: nat): Option<Decoded<Unit>> {
      var h :- DecodeHead(s, p);
      var m :- DecodeMotion(s, h.next);
      var i :- DecodeInventory(s, m.next);
      var (id, playerId, health, shield, extraLives, position, spawn) := h.value;
      var (velocity, direction, aim, action) := m.value;
      var (regen, weapon, nextShot, ammo, potions) := i.value;
      Some(Decoded(Unit(id, playerId, health, shield, extraLives, position, spawn, velocity,
                        direction, aim, action, regen, weapon, nextShot, ammo, potions,
                        0.0, 0.0, 0.0, 0.0, Zero),
                   i.next))
    }
 
    /** `calcSpeedCircle`: the radius from the constants, the maximal
        forward and backward speeds slowed by aiming when a weapon is held,
        and the circle of reachable velocities they span. */
    function CalcSpeedCircle(c: Constants): (r: Unit)
      requires weapon.Some? ==> c.IsWeapon(weapon.value)
      ensures r.Serialised() == Serialised()
      ensures r.unitRadius == c.unitRadius
      ensures weapon.None? || aim == 0.0 ==>
                r.maxForwardSpeed == c.maxUnitForwardSpeed && r.maxBackwardSpeed == c.maxUnitBackwardSpeed
      ensures (r.maxForwardSpeed, r.maxBackwardSpeed) == MaxSpeeds(c, weapon, aim)
      ensures r.speedRadius == (r.maxBackwardSpeed + r.maxForwardSpeed) / 2.0
      ensures r.speedCenter == position.Plus(direction.Times((r.maxForwardSpeed - r.maxBackwardSpeed) / 2.0))
    {
      var (forward, backward) := MaxSpeeds(c, weapon, aim);
      this.(unitRadius := c.unitRadius,
            maxForwardSpeed := forward,
            maxBackwardSpeed := backward,
            speedRadius := (backward + forward) / 2.0,
            speedCenter := position.Plus(direction.Times((forward - backward) / 2.0)))
    }

    /** How far the speed circle's centre lies ahead of the unit. */
    function Offset(): real {
      (maxForwardSpeed - maxBackwardSpeed) / 2.0
    }

    /** The speed circle as `calcSpeedCircle` leaves it around a unit facing
        along a unit vector: non-negative speeds, their mean as the radius,
        and the centre `Offset()` ahead of the unit. */
    predicate CircleSet() {
      && direction.LenSquared() == 1.0
      && 0.0 <= maxForwardSpeed && 0.0 <= maxBackwardSpeed
      && speedRadius == (maxForwardSpeed + maxBackwardSpeed) / 2.0
      && speedCenter == position.Plus(direction.Times(Offset()))
    }

    /** The speed `getVelocity` computes along `dir`, as written: the
        law-of-cosines length of the chord of the speed circle. The angle
        comes from `asin` of the cross product alone, which cannot tell a
        direction behind the unit from its mirror image in front. */
    function SpeedAlongAsWritten(dir: Vec2, sqrt: real -> real, cos: real -> real, asin: real -> real): (len: real)
      requires IsSqrt(sqrt) && IsCosine(cos) && speedRadius != 0.0
      ensures 0.0 <= len
      ensures var d := (maxForwardSpeed - maxBackwardSpeed) / 2.0;
              (Abs(speedRadius) - Abs(d)) * (Abs(speedRadius) - Abs(d)) <= len * len
              <= (Abs(speedRadius) + Abs(d)) * (Abs(speedRadius) + Abs(d))
    {
      var sinA := Clamp(direction.Cross(dir), -1.0, 1.0);
      var d := (maxForwardSpeed - maxBackwardSpeed) / 2.0;
      var sinB := d * sinA / speedRadius;
      var angle := Pi - asin(sinA) - asin(sinB);
      Chord(d, speedRadius, cos(angle), sqrt)
    }

    /** The speed the circle allows along a unit vector `dir`: how far the
        unit can go along `dir` before it reaches the edge of its speed
        circle. With `cosA = direction·dir` and `sinA = direction×dir` that
        is `d cosA + sqrt(R² - d² sinA²)`. */
    function SpeedAlong(dir: Vec2, sqrt: real -> real): (len: real)
      requires IsSqrt(sqrt)
    {
      Reach(Offset(), speedRadius, direction.Dot(dir), direction.Cross(dir), sqrt)
    }

    /** `getVelocity`: the velocity along `dir` at the speed the circle
        allows, so that it ends on the edge of the speed circle. */
    function GetVelocity(dir: Vec2, sqrt: real -> real): (r: Vec2)
      requires IsSqrt(sqrt)
      ensures r == dir.Times(SpeedAlong(dir, sqrt))
      ensures CircleSet() && dir.LenSquared() == 1.0 ==>
                && 0.0 <= SpeedAlong(dir, sqrt)
                && position.Plus(r).DistToSquared(speedCenter) == speedRadius * speedRadius
    {
      var r := dir.Times(SpeedAlong(dir, sqrt));
      if CircleSet() && dir.LenSquared() == 1.0 then SpeedAlongOnCircle(this, dir, sqrt); r else r
    }

    /** `hasHit(obstacle)`: the time within the coming tick at which the unit,
        moving at its velocity, first touches the obstacle, if it does. A
        nearly standing unit never hits. */
    function HitTime(obstacle: Obstacle, c: Constants, sqrt: real -> real): (r: Option<real>)
      requires IsSqrt(sqrt) && c.Valid()
      ensures r.Some? ==> 1e-8 <= velocity.LenSquared()
      ensures r.Some? ==> 0.0 <= r.value <= c.TickTime()
      ensures r.Some? ==> position.Minus(obstacle.position).Plus(velocity.Times(r.value)).LenSquared()
                          == (obstacle.radius + c.unitRadius) * (obstacle.radius + c.unitRadius)
      ensures r.Some? ==> forall t :: 0.0 <= t < r.value ==>
                position.Minus(obstacle.position).Plus(velocity.Times(t)).LenSquared()
                > (obstacle.radius + c.unitRadius) * (obstacle.radius + c.unitRadius)
    {
      var c0 := position.Minus(obstacle.position);
      var radius := obstacle.radius + c.unitRadius;
      var (a, b, cc) := Quadratic(c0, velocity, radius);
      if a < 1e-8 then None else
      var d := Discriminant(a, b, cc);
      if d < 0.0 then None else
      var t := SmallerRoot(a, b, d, sqrt);
      if t < 0.0 || t > 1.0 / c.ticksPerSecond then None
      else
        assert a == velocity.LenSquared();
        SmallerRootContact(c0, velocity, radius, sqrt(d), t);
        Some(t)
    }

    method WriteTo(out: OutputStream)
      modifies out
      ensures out.written == old(out.written) + Encode()
    {
      WriteHead(out);
      WriteMotion(out);
      WriteInventory(out);
    }

    method WriteHead(out: OutputStream)
      modifies out
      ensures out.written == old(out.written) + EncodeHead()
    {
      out.WriteInt(id);
      out.WriteInt(playerId);
      out.WriteDouble(health);
      out.WriteDouble(shield);
      out.WriteInt(extraLives);
      position.WriteTo(out);
      if remainingSpawnTime.Some? {
        out.WriteBool(true);
        out.WriteDouble(remainingSpawnTime.value);
      } else {
        out.WriteBool(false);
      }
    }

    method WriteMotion(out: OutputStream)
      modifies out
      ensures out.written == old(out.written) + EncodeMotion()
    {
      velocity.WriteTo(out);
      direction.WriteTo(out);
      out.WriteDouble(aim);
      if action.Some? {
        out.WriteBool(true);
        out.WriteAction(action.value);
      } else {
        out.WriteBool(false);
      }
    }

    method WriteInventory(out: OutputStream)
      modifies out
      ensures out.written == old(out.written) + EncodeInventory()
    {
      out.WriteInt(healthRegenerationStartTick);
      if weapon.Some? {
        out.WriteBool(true);
        out.WriteInt(weapon.value);
      } else {
        out.WriteBool(false);
      }
      out.WriteInt(nextShotTick);
      ghost var beforeAmmo := out.written;
      WriteAmmo(out);
      out.WriteInt(shieldPotions);
      assert out.written == beforeAmmo + EncodeAmmo(ammo) + [IntToken(shieldPotions)];
    }

    /** The ammo list: its size as an `int`, then each count. */
    method WriteAmmo(out: OutputStream)
      modifies out
      ensures out.written == old(out.written) + EncodeAmmo(ammo)
    {
      out.WriteInt(WrapToInt32(|ammo|));
      ghost var beforeElements := out.written;
      for k := 0 to |ammo|
        invariant out.written == beforeElements + EncodeInts(ammo[..k])
      {
        assert EncodeInts(ammo[..k + 1]) == EncodeInts(ammo[..k]) + [IntToken(ammo[k])];
        out.WriteInt(ammo[k]);
      }
      assert ammo[..|ammo|] == ammo;
    }

    static method ReadFrom(inp: InputStream) returns (r: Option<Unit>)
      modifies inp
      ensures Agrees(r, Decode(inp.tokens, old(inp.pos)), inp.pos)
    {
      var h := ReadHead(inp);
      if h.None? {
        return None;
      }
      var m := ReadMotion(inp);
      if m.None? {
        return None;
      }
      var i := ReadInventory(inp);
      if i.None? {
        return None;
      }
      var (id, playerId, health, shield, extraLives, position, spawn) := h.value;
      var (velocity, direction, aim, action) := m.value;
      var (regen, weapon, nextShot, ammo, potions) := i.value;
      r := Some(Unit(id, playerId, health, shield, extraLives, position, spawn, velocity,
                     direction, aim, action, regen, weapon, nextShot, ammo, potions,
                     0.0, 0.0, 0.0, 0.0, Zero));
    }
  }

  method ReadHead(inp: InputStream) returns (r: Option<(int, int, real, real, int, Vec2, Option<real>)>)
    modifies inp
    ensures Agrees(r, DecodeHead(inp.tokens, old(inp.pos)), inp.pos)
  {
    var id := inp.ReadInt();
    if id.None? { return None; }
    var playerId := inp.ReadInt();
    if playerId.None? { return None; }
    var health := inp.ReadDouble();
    if health.None? { return None; }
    var shield := inp.ReadDouble();
    if shield.None? { return None; }
    var extraLives := inp.ReadInt();
    if extraLives.None? { return None; }
    var position := Vec2.ReadFrom(inp);
    if position.None? { return None; }
    var spawn := ReadOptDouble(inp);
    if spawn.None? { return None; }
    r := Some((id.value, playerId.value, health.value, shield.value, extraLives.value,
               position.value, spawn.value));
  }

  method ReadMotion(inp: InputStream) returns (r: Option<(Vec2, Vec2, real, Option<Action>)>)
    modifies inp
    ensures Agrees(r, DecodeMotion(inp.tokens, old(inp.pos)), inp.pos)
  {
    var velocity := Vec2.ReadFrom(inp);
    if velocity.None? { return None; }
    var direction := Vec2.ReadFrom(inp);
    if direction.None? { return None; }
    var aim := inp.ReadDouble();
    if aim.None? { return None; }
    var action := ReadOptAction(inp);
    if action.None? { return None; }
    r := Some((velocity.value, direction.value, aim.value, action.value));
  }

  method ReadInventory(inp: InputStream) returns (r: Option<(int, Option<int>, int, seq<int>, int)>)
    modifies inp
    ensures Agrees(r, DecodeInventory(inp.tokens, old(inp.pos)), inp.pos)
  {
    var regen := inp.ReadInt();
    if regen.None? { return None; }
    var weapon := ReadOptInt(inp);
    if weapon.None? { return None; }
    var nextShot := inp.ReadInt();
    if nextShot.None? { return None; }
    var ammo := ReadAmmo(inp);
    if ammo.None? { return None; }
    var potions := inp.ReadInt();
    if potions.None? { return None; }
    r := Some((regen.value, weapon.value, nextShot.value, ammo.value, potions.value));
  }

  /** The presence flag, then the value if the flag is set. */
  method ReadOptDouble(inp: InputStream) returns (r: Option<Option<real>>)
    modifies inp
    ensures Agrees(r, DecodeOptDouble(inp.tokens, old(inp.pos)), inp.pos)
  {
    var present := inp.ReadBool();
    if present.None? { return None; }
    if !present.value { return Some(None); }
    var v := inp.ReadDouble();
    if v.None? { return None; }
    r := Some(Some(v.value));
  }

  method ReadOptInt(inp: InputStream) returns (r: Option<Option<int>>)
    modifies inp
    ensures Agrees(r, DecodeOptInt(inp.tokens, old(inp.pos)), inp.pos)
  {
    var present := inp.ReadBool();
    if present.None? { return None; }
    if !present.value { return Some(None); }
    var v := inp.ReadInt();
    if v.None? { return None; }
    r := Some(Some(v.value));
  }

  method ReadOptAction(inp: InputStream) returns (r: Option<Option<Action>>)
    modifies inp
    ensures Agrees(r, DecodeOptAction(inp.tokens, old(inp.pos)), inp.pos)
  {
    var present := inp.ReadBool();
    if present.None? { return None; }
    if !present.value { return Some(None); }
    var v := inp.ReadAction();
    if v.None? { return None; }
    r := Some(Some(v.value));
  }

  /** The ammo count, then that many ints, read one at a time. */
  method ReadAmmo(inp: InputStream) returns (r: Option<seq<int>>)
    modifies inp
    ensures Agrees(r, DecodeAmmo(inp.tokens, old(inp.pos)), inp.pos)
  {
    var n := inp.ReadInt();
    if n.None? || n.value < 0 {
      return None;
    }
    ghost var start := inp.pos;
    var ammo: seq<int> := [];
    var k := 0;
    while k < n.value
      invariant 0 <= k <= n.value
      invariant inp.pos == start + k <= |inp.tokens|
      invariant forall j | start <= j < start + k :: inp.tokens[j].IntToken?
      invariant ammo == seq(k, j requires 0 <= j < k => inp.tokens[start + j].i)
    {
      var x := inp.ReadInt();
      if x.None? {
        assert DecodeInts(inp.tokens, start, n.value).None?;
        return None;
      }
      ammo := ammo + [x.value];
      k := k + 1;
    }
    r := Some(ammo);
  }

  function DecodeHead(s: seq<Token>, p: nat): Option<Decoded<(int, int, real, real, int, Vec2, Option<real>)>> {
    var id :- ReadIntAt(s, p);
    var playerId :- ReadIntAt(s, id.next);
    var health :- ReadDoubleAt(s, playerId.next);
    var shield :- ReadDoubleAt(s, health.next);
    var extraLives :- ReadIntAt(s, shield.next);
    var position :- Vec2.Decode(s, extraLives.next);
    var spawn :- DecodeOptDouble(s, position.next);
    Some(Decoded((id.value, playerId.value, health.value, shield.value, extraLives.value,
                  position.value, spawn.value), spawn.next))
  }

  function DecodeMotion(s: seq<Token>, p: nat): Option<Decoded<(Vec2, Vec2, real, Option<Action>)>> {
    var velocity :- Vec2.Decode(s, p);
    var direction :- Vec2.Decode(s, velocity.next);
    var aim :- ReadDoubleAt(s, direction.next);
    var action :- DecodeOptAction(s, aim.next);
    Some(Decoded((velocity.value, direction.value, aim.value, action.value), action.next))
  }

  function DecodeInventory(s: seq<Token>, p: nat): Option<Decoded<(int, Option<int>, int, seq<int>, int)>> {
    var regen :- ReadIntAt(s, p);
    var weapon :- DecodeOptInt(s, regen.next);
    var nextShot :- ReadIntAt(s, weapon.next);
    var ammo :- DecodeAmmo(s, nextShot.next);
    var potions :- ReadIntAt(s, ammo.next);
    Some(Decoded((regen.value, weapon.value, nextShot.value, ammo.value, potions.value), potions.next))
  }

  /** An optional field: a presence flag, then the value when present. */
  function EncodeOptDouble(o: Option<real>): seq<Token> {
    if o.Some? then [BoolToken(true), DoubleToken(o.value)] else [BoolToken(false)]
  }

  function EncodeOptInt(o: Option<int>): seq<Token> {
    if o.Some? then [BoolToken(true), IntToken(o.value)] else [BoolToken(false)]
  }

  function EncodeOptAction(o: Option<Action>): seq<Token> {
    if o.Some? then [BoolToken(true), ActionToken(o.value)] else [BoolToken(false)]
  }

  function DecodeOptDouble(s: seq<Token>, p: nat): Option<Decoded<Option<real>>> {
    var present :- ReadBoolAt(s, p);
    if present.value then
      var v :- ReadDoubleAt(s, present.next);
      Some(Decoded(Some(v.value), v.next))
    else Some(Decoded(None, present.next))
  }

  function DecodeOptInt(s: seq<Token>, p: nat): Option<Decoded<Option<int>>> {
    var present :- ReadBoolAt(s, p);
    if present.value then
      var v :- ReadIntAt(s, present.next);
      Some(Decoded(Some(v.value), v.next))
    else Some(Decoded(None, present.next))
  }

  function DecodeOptAction(s: seq<Token>, p: nat): Option<Decoded<Option<Action>>> {
    var present :- ReadBoolAt(s, p);
    if present.value then
      var v :- ReadActionAt(s, present.next);
      Some(Decoded(Some(v.value), v.next))
    else Some(Decoded(None, present.next))
  }

  /** The ammo list: its count as a 32-bit `int`, then the elements. */
  function EncodeAmmo(ammo: seq<int>): seq<Token> {
    [IntToken(WrapToInt32(|ammo|))] + EncodeInts(ammo)
  }

  /** A negative count becomes a huge unsigned size, which the source cannot
      reserve or read: decoding fails. */
  function DecodeAmmo(s: seq<Token>, p: nat): Option<Decoded<seq<int>>> {
    var n :- ReadIntAt(s, p);
    if n.value < 0 then None else DecodeInts(s, n.next, n.value)
  }

  /** The ammo elements, one int each. */
  function EncodeInts(xs: seq<int>): (r: seq<Token>)
    ensures |r| == |xs|
  {
    seq(|xs|, i requires 0 <= i < |xs| => IntToken(xs[i]))
  }

  /** `n` ints starting at `p`. */
  function DecodeInts(s: seq<Token>, p: nat, n: nat): Option<Decoded<seq<int>>> {
    if p + n <= |s| && forall i | p <= i < p + n :: s[i].IntToken? then
      Some(Decoded(seq(n, i requires 0 <= i < n => s[p + i].i), p + n))
    else None
  }

  lemma DecodeEncodeOptDouble(o: Option<real>, s: seq<Token>, p: nat)
    requires At(s, p, EncodeOptDouble(o))
    ensures DecodeOptDouble(s, p) == Some(Decoded(o, p + |EncodeOptDouble(o)|))
  {
    AtSuffix(s, p, EncodeOptDouble(o), 0);
    if o.Some? {
      AtSuffix(s, p, EncodeOptDouble(o), 1);
    }
  }

  lemma DecodeEncodeOptInt(o: Option<int>, s: seq<Token>, p: nat)
    requires At(s, p, EncodeOptInt(o))
    ensures var d := DecodeOptInt(s, p);
            d.Some? && d.value.value == o && d.value.next == p + |EncodeOptInt(o)|
  {
    AtSuffix(s, p, EncodeOptInt(o), 0);
    if o.Some? {
      AtSuffix(s, p, EncodeOptInt(o), 1);
    }
  }

  lemma DecodeEncodeOptAction(o: Option<Action>, s: seq<Token>, p: nat)
    requires At(s, p, EncodeOptAction(o))
    ensures DecodeOptAction(s, p) == Some(Decoded(o, p + |EncodeOptAction(o)|))
  {
    AtSuffix(s, p, EncodeOptAction(o), 0);
    if o.Some? {
      AtSuffix(s, p, EncodeOptAction(o), 1);
    }
  }

  /** The ammo list reads back as written: exactly `|xs|` ints. */
  lemma DecodeEncodeInts(xs: seq<int>, s: seq<Token>, p: nat)
    requires At(s, p, EncodeInts(xs))
    ensures DecodeInts(s, p, |xs|) == Some(Decoded(xs, p + |xs|))
  {
    forall i | p <= i < p + |xs|
      ensures s[i].IntToken? && s[i].i == xs[i - p]
    {
      AtSuffix(s, p, EncodeInts(xs), i - p);
    }
    assert seq(|xs|, i requires 0 <= i < |xs| => s[p + i].i) == xs;
  }

  lemma {:induction false} DecodeEncodeHead(u: Unit, s: seq<Token>, p: nat)
    requires At(s, p, u.EncodeHead())
    ensures DecodeHead(s, p) == Some(Decoded((u.id, u.playerId, u.health, u.shield, u.extraLives,
                                              u.position, u.remainingSpawnTime), p + |u.EncodeHead()|))
  {
    var e0 := [IntToken(u.id), IntToken(u.playerId), DoubleToken(u.health), DoubleToken(u.shield), IntToken(u.extraLives)];
    AtSplit(s, p, e0 + u.position.Encode(), EncodeOptDouble(u.remainingSpawnTime));
    AtSplit(s, p, e0, u.position.Encode());
    AtSuffix(s, p, e0, 0);
    AtSuffix(s, p, e0, 1);
    AtSuffix(s, p, e0, 2);
    AtSuffix(s, p, e0, 3);
    AtSuffix(s, p, e0, 4);
    Vectors.DecodeEncode(u.position, s, p + 5);
    DecodeEncodeOptDouble(u.remainingSpawnTime, s, p + 7);
  }

  lemma {:induction false} DecodeEncodeMotion(u: Unit, s: seq<Token>, p: nat)
    requires At(s, p, u.EncodeMotion())
    ensures DecodeMotion(s, p) == Some(Decoded((u.velocity, u.direction, u.aim, u.action), p + |u.EncodeMotion()|))
  {
    var e2 := [DoubleToken(u.aim)];
    AtSplit(s, p, u.velocity.Encode() + u.direction.Encode() + e2, EncodeOptAction(u.action));
    AtSplit(s, p, u.velocity.Encode() + u.direction.Encode(), e2);
    AtSplit(s, p, u.velocity.Encode(), u.direction.Encode());
    Vectors.DecodeEncode(u.velocity, s, p);
    Vectors.DecodeEncode(u.direction, s, p + 2);
    AtSuffix(s, p + 4, e2, 0);
    DecodeEncodeOptAction(u.action, s, p + 5);
  }

  /** The ammo list reads back as written when its count fits an `int`. */
  lemma {:induction false} DecodeEncodeAmmo(ammo: seq<int>, s: seq<Token>, p: nat)
    requires |ammo| <= IntMax
    requires At(s, p, EncodeAmmo(ammo))
    ensures var d := DecodeAmmo(s, p);
            d.Some? && d.value.value == ammo && d.value.next == p + |EncodeAmmo(ammo)|
  {
    AtSplit(s, p, [IntToken(WrapToInt32(|ammo|))], EncodeInts(ammo));
    AtSuffix(s, p, EncodeAmmo(ammo), 0);
    DecodeEncodeInts(ammo, s, p + 1);
  }

  lemma {:induction false} DecodeEncodeInventory(u: Unit, s: seq<Token>, p: nat)
    requires |u.ammo| <= IntMax
    requires At(s, p, u.EncodeInventory())
    ensures var i := DecodeInventory(s, p);
            && i.Some? && i.value.next == p + |u.EncodeInventory()|
            && i.value.value == (u.healthRegenerationStartTick, u.weapon, u.nextShotTick, u.ammo, u.shieldPotions)
  {
    var q1, q2, q3 := InventorySplit(u, s, p);
    DecodeEncodeOptInt(u.weapon, s, p + 1);
    DecodeEncodeAmmo(u.ammo, s, q1 + 1);
    InventoryParts(u, s, p, q1, q2);
  }

  /** The inventory fields read back as `u`'s make the inventory run read
      back as `u`'s. */
  lemma InventoryParts(u: Unit, s: seq<Token>, p: nat, q1: nat, q2: nat)
    requires q2 < |s| && p < |s| && q1 < |s|
    requires s[p] == IntToken(u.healthRegenerationStartTick)
    requires var w := DecodeOptInt(s, p + 1); w.Some? && w.value.value == u.weapon && w.value.next == q1
    requires s[q1] == IntToken(u.nextShotTick)
    requires var a := DecodeAmmo(s, q1 + 1); a.Some? && a.value.value == u.ammo && a.value.next == q2
    requires s[q2] == IntToken(u.shieldPotions)
    ensures var i := DecodeInventory(s, p);
            && i.Some? && i.value.next == q2 + 1
            && i.value.value == (u.healthRegenerationStartTick, u.weapon, u.nextShotTick, u.ammo, u.shieldPotions)
  {
  }

  /** Where the fields of the inventory run sit in a written unit. */
  lemma InventorySplit(u: Unit, s: seq<Token>, p: nat) returns (q1: nat, q2: nat, q3: nat)
    requires At(s, p, u.EncodeInventory())
    ensures q1 == p + 1 + |EncodeOptInt(u.weapon)| && q2 == q1 + 1 + |EncodeAmmo(u.ammo)|
    ensures q3 == q2 + 1 == p + |u.EncodeInventory()| && q3 <= |s|
    ensures s[p] == IntToken(u.healthRegenerationStartTick) && At(s, p + 1, EncodeOptInt(u.weapon))
    ensures s[q1] == IntToken(u.nextShotTick) && At(s, q1 + 1, EncodeAmmo(u.ammo))
    ensures s[q2] == IntToken(u.shieldPotions)
  {
    var e0 := [IntToken(u.healthRegenerationStartTick)];
    var e1 := EncodeOptInt(u.weapon);
    var e2 := [IntToken(u.nextShotTick)];
    var e3 := EncodeAmmo(u.ammo);
    var e4 := [IntToken(u.shieldPotions)];
    q1 := p + 1 + |e1|;
    q2 := q1 + 1 + |e3|;
    q3 := q2 + 1;
    AtSplit(s, p, e0 + e1 + e2 + e3, e4);
    AtSplit(s, p, e0 + e1 + e2, e3);
    AtSplit(s, p, e0 + e1, e2);
    AtSplit(s, p, e0, e1);
    AtSuffix(s, p, e0, 0);
    AtSuffix(s, q1, e2, 0);
    AtSuffix(s, q2, e4, 0);
  }

  /** Reading back what `writeTo` wrote restores every serialised field and
      consumes exactly the written tokens; the round trip needs the ammo count
      to fit the `int` it is written as. */
  lemma {:induction false} DecodeEncode(u: Unit, s: seq<Token>, p: nat)
    requires |u.ammo| <= IntMax
    requires At(s, p, u.Encode())
    ensures var r := Unit.Decode(s, p);
            r.Some? && r.value.value == u.Serialised() && r.value.next == p + |u.Encode()|
  {
    var q1, q2, q3 := EncodeSplit(u, s, p);
    DecodeRuns(u, s, p, q1, q2, q3);
  }

  /** `readFrom` over the three runs of fields, each where `writeTo` put it. */
  lemma DecodeRuns(u: Unit, s: seq<Token>, p: nat, q1: nat, q2: nat, q3: nat)
    requires |u.ammo| <= IntMax
    requires q1 == p + |u.EncodeHead()| && q2 == q1 + |u.EncodeMotion()| && q3 == q2 + |u.EncodeInventory()|
    requires At(s, p, u.EncodeHead()) && At(s, q1, u.EncodeMotion()) && At(s, q2, u.EncodeInventory())
    ensures var r := Unit.Decode(s, p);
            r.Some? && r.value.value == u.Serialised() && r.value.next == q3
  {
    DecodeEncodeHead(u, s, p);
    DecodeEncodeMotion(u, s, q1);
    DecodeEncodeInventory(u, s, q2);
    DecodeParts(u, s, p, q1, q2, q3);
  }

  /** Where the three runs of fields sit in a written unit. */
  lemma EncodeSplit(u: Unit, s: seq<Token>, p: nat) returns (q1: nat, q2: nat, q3: nat)
    requires At(s, p, u.Encode())
    ensures q1 == p + |u.EncodeHead()| && q2 == q1 + |u.EncodeMotion()| && q3 == q2 + |u.EncodeInventory()|
    ensures q3 == p + |u.Encode()|
    ensures At(s, p, u.EncodeHead()) && At(s, q1, u.EncodeMotion()) && At(s, q2, u.EncodeInventory())
  {
    q1 := p + |u.EncodeHead()|;
    q2 := q1 + |u.EncodeMotion()|;
    q3 := q2 + |u.EncodeInventory()|;
    AtSplit(s, p, u.EncodeHead() + u.EncodeMotion(), u.EncodeInventory());
    AtSplit(s, p, u.EncodeHead(), u.EncodeMotion());
  }

  /** The three runs of fields read back as `u`'s make `readFrom` rebuild
      `u` without its speed circle. */
  lemma DecodeParts(u: Unit, s: seq<Token>, p: nat, q1: nat, q2: nat, q3: nat)
    requires var h := DecodeHead(s, p);
             && h.Some? && h.value.next == q1
             && h.value.value == (u.id, u.playerId, u.health, u.shield, u.extraLives, u.position, u.remainingSpawnTime)
    requires var m := DecodeMotion(s, q1);
             m.Some? && m.value.next == q2 && m.value.value == (u.velocity, u.direction, u.aim, u.action)
    requires var i := DecodeInventory(s, q2);
             && i.Some? && i.value.next == q3
             && i.value.value == (u.healthRegenerationStartTick, u.weapon, u.nextShotTick, u.ammo, u.shieldPotions)
    ensures var r := Unit.Decode(s, p);
            r.Some? && r.value.value == u.Serialised() && r.value.next == q3
  {
  }

  /** The maximal forward and backward speeds of a unit holding `weapon`
      with aim `aim`: aiming with a weapon whose aim modifier is `m` scales
      both constants by `1 - (1 - m) aim`. */
  function MaxSpeeds(c: Constants, weapon: Option<int>, aim: real): (real, real)
    requires weapon.Some? ==> c.IsWeapon(weapon.value)
  {
    var factor := if weapon.Some? then 1.0 - (1.0 - c.weapons[weapon.value].aimMovementSpeedModifier) * aim else 1.0;
    (c.maxUnitForwardSpeed * factor, c.maxUnitBackwardSpeed * factor)
  }

  /** Aiming slows a unit by at most its weapon's aim modifier: with
      0 <= aim <= 1 both speeds lie between the modifier times the constant
      and the constant, so the speed circle has a positive radius. */
  lemma {:induction false} SpeedCircleBounds(c: Constants, weapon: Option<int>, aim: real)
    requires c.Valid() && 0.0 <= aim <= 1.0
    requires weapon.Some? ==> c.IsWeapon(weapon.value)
    ensures var (fwd, bwd) := MaxSpeeds(c, weapon, aim);
            var m := if weapon.Some? then c.weapons[weapon.value].aimMovementSpeedModifier else 1.0;
            && m * c.maxUnitForwardSpeed <= fwd <= c.maxUnitForwardSpeed
            && m * c.maxUnitBackwardSpeed <= bwd <= c.maxUnitBackwardSpeed
            && 0.0 < (bwd + fwd) / 2.0
  {
    var m := if weapon.Some? then c.weapons[weapon.value].aimMovementSpeedModifier else 1.0;
    var f := if weapon.Some? then 1.0 - (1.0 - m) * aim else 1.0;
    if weapon.Some? {
      assert c.weapons[weapon.value] in c.weapons;
      AimFactorBounds(m, aim);
    }
    var (fwd, bwd) := MaxSpeeds(c, weapon, aim);
    SpeedBounds(c.maxUnitForwardSpeed, c.maxUnitBackwardSpeed, m, f, fwd, bwd, (bwd + fwd) / 2.0);
  }

  /** Both speeds scaled by a factor `f` in [m, 1] stay between m times
      themselves and themselves, and their mean stays positive. */
  lemma SpeedBounds(fwd: real, bwd: real, m: real, f: real, rf: real, rb: real, rr: real)
    requires 0.0 < fwd && 0.0 < bwd && 0.0 < m <= f <= 1.0
    requires rf == fwd * f && rb == bwd * f && rr == (rb + rf) / 2.0
    ensures m * fwd <= rf <= fwd && m * bwd <= rb <= bwd && 0.0 < rr
  {
    ScaleBetween(fwd, m, f);
    ScaleBetween(bwd, m, f);
    MulPositive(m, fwd);
    MulPositive(m, bwd);
  }

  /** The aim slow-down factor `1 - (1 - m) aim` lies in [m, 1]. */
  lemma AimFactorBounds(m: real, aim: real)
    requires 0.0 < m <= 1.0 && 0.0 <= aim <= 1.0
    ensures m <= 1.0 - (1.0 - m) * aim <= 1.0
  {
    MulNonNegative(1.0 - m, aim);
    MulNonNegative(1.0 - m, 1.0 - aim);
  }

  lemma ScaleBetween(x: real, m: real, f: real)
    requires 0.0 < x && m <= f <= 1.0
    ensures m * x <= x * f <= x
  {
    MulNonNegative(x, f - m);
    MulNonNegative(x, 1.0 - f);
  }

  function Clamp(x: real, lo: real, hi: real): (r: real)
    requires lo <= hi
    ensures lo <= r <= hi
    ensures lo <= x <= hi ==> r == x
  {
    if x < lo then lo else if hi < x then hi else x
  }

  /** With `|k| <= 1`, `x k` lies within `|x|` of zero. */
  lemma ScaledByUnit(x: real, k: real)
    requires -1.0 <= k <= 1.0
    ensures -Abs(x) <= x * k <= Abs(x)
  {
    if 0.0 <= x {
      MulNonNegative(x, 1.0 - k);
      MulNonNegative(x, 1.0 + k);
    } else {
      MulNonNegative(-x, 1.0 - k);
      MulNonNegative(-x, 1.0 + k);
    }
  }

  lemma AbsMul(x: real, y: real)
    ensures Abs(x) * Abs(y) == Abs(x * y)
  {
    if x < 0.0 && 0.0 <= y {
      MulNonNegative(-x, y);
    } else if 0.0 <= x && y < 0.0 {
      MulNonNegative(x, -y);
    } else if 0.0 <= x {
      MulNonNegative(x, y);
    } else {
      MulNonNegative(-x, -y);
    }
  }

  /** The law of cosines with a cosine in [-1, 1] lies between the squares of
      the difference and of the sum of the two sides. */
  lemma CosineLawBounds(d: real, radius: real, k: real)
    requires -1.0 <= k <= 1.0
    ensures (Abs(radius) - Abs(d)) * (Abs(radius) - Abs(d)) <= d * d + radius * radius - 2.0 * d * radius * k
    ensures d * d + radius * radius - 2.0 * d * radius * k <= (Abs(radius) + Abs(d)) * (Abs(radius) + Abs(d))
    ensures 0.0 <= d * d + radius * radius - 2.0 * d * radius * k
  {
    ScaledByUnit(d * radius, k);
    AbsMul(radius, d);
    assert Abs(radius) * Abs(radius) == radius * radius;
    assert Abs(d) * Abs(d) == d * d;
    assert 2.0 * d * radius * k == 2.0 * ((d * radius) * k);
    assert Abs(radius * d) == Abs(d * radius);
    SquareNonNegative(Abs(radius) - Abs(d));
  }

  /** The third side of a triangle with sides `d` and `radius` whose
      enclosed angle has cosine `k`, by the law of cosines. It lies between
      the difference and the sum of the two sides. */
  function Chord(d: real, radius: real, k: real, sqrt: real -> real): (len: real)
    requires -1.0 <= k <= 1.0 && IsSqrt(sqrt)
    ensures 0.0 <= len
    ensures (Abs(radius) - Abs(d)) * (Abs(radius) - Abs(d)) <= len * len
    ensures len * len <= (Abs(radius) + Abs(d)) * (Abs(radius) + Abs(d))
  {
    var x := d * d + radius * radius - 2.0 * d * radius * k;
    CosineLawBounds(d, radius, k);
    assert sqrt(x) * sqrt(x) == x;
    sqrt(x)
  }

  /** How far a ray reaches before it leaves a circle of radius `radius`
      whose centre lies `d` along the unit vector at angle `A` to the ray,
      given `cos A` and `sin A`. A negative radicand, which unit vectors and
      `d² <= radius²` rule out, counts as zero. */
  function Reach(d: real, radius: real, cosA: real, sinA: real, sqrt: real -> real): real
    requires IsSqrt(sqrt)
  {
    var x := radius * radius - d * d * sinA * sinA;
    d * cosA + sqrt(if x < 0.0 then 0.0 else x)
  }

  /** With `cos² A + sin² A = 1` and the ray starting inside the circle,
      the reach is non-negative and solves `len² - 2 len d cos A + d² = radius²`,
      the law of cosines for the point where the ray leaves the circle. */
  lemma ReachSolves(d: real, radius: real, cosA: real, sinA: real, sqrt: real -> real)
    requires IsSqrt(sqrt) && cosA * cosA + sinA * sinA == 1.0 && d * d <= radius * radius
    ensures var len := Reach(d, radius, cosA, sinA, sqrt);
            0.0 <= len && len * len - 2.0 * len * d * cosA + d * d == radius * radius
  {
    SquareNonNegative(cosA);
    MulNonNegative(d * d, 1.0 - sinA * sinA);
    var x := radius * radius - d * d * sinA * sinA;
    assert 0.0 <= x;
    var q := sqrt(x);
    assert q * q == x && 0.0 <= q;
    var len := Reach(d, radius, cosA, sinA, sqrt);
    assert len == d * cosA + q;
    var m := d * cosA;
    assert x - m * m == radius * radius - d * d by {
      assert m * m == d * d * (cosA * cosA);
    }
    // q covers |d cos A|, so the reach is non-negative.
    var am := Abs(m);
    assert am * am == m * m;
    SquareNonNegative(m);
    SqrtMonotone(sqrt, m * m, x);
    SqrtOfSquare(sqrt, am);
    assert sqrt(m * m) == am;
    assert -m <= am <= q;
    assert len * len - 2.0 * len * m == q * q - m * m;
  }

  /** Straight ahead a ray reaches `radius + d`, straight back `radius - d`. */
  lemma ReachStraight(d: real, radius: real, sqrt: real -> real)
    requires IsSqrt(sqrt) && 0.0 <= radius
    ensures Reach(d, radius, 1.0, 0.0, sqrt) == d + radius
    ensures Reach(d, radius, -1.0, 0.0, sqrt) == radius - d
  {
    assert radius * radius - d * d * 0.0 * 0.0 == radius * radius;
    SqrtOfSquare(sqrt, radius);
  }

  /** For unit vectors `a` and `b`, the squares of their dot and cross
      products sum to 1. */
  lemma DotCrossSquares(a: Vec2, b: Vec2)
    ensures a.Dot(b) * a.Dot(b) + a.Cross(b) * a.Cross(b) == a.LenSquared() * b.LenSquared()
  {
  }

  /** The squared distance between `p + len b` and `p + d a`. */
  lemma LandingDistance(p: Vec2, a: Vec2, b: Vec2, len: real, d: real)
    ensures p.Plus(b.Times(len)).DistToSquared(p.Plus(a.Times(d)))
            == len * len * b.LenSquared() - 2.0 * len * d * a.Dot(b) + d * d * a.LenSquared()
  {
    var e := p.Plus(b.Times(len)).Minus(p.Plus(a.Times(d)));
    assert e == Vec2(len * b.x - d * a.x, len * b.y - d * a.y);
  }

  /** The corrected speed reaches the edge of the speed circle: from the
      unit, `len` along `dir` lands at distance `R` from the centre, which
      lies `d` ahead. */
  lemma SpeedAlongOnCircle(u: Unit, dir: Vec2, sqrt: real -> real)
    requires IsSqrt(sqrt) && u.CircleSet() && dir.LenSquared() == 1.0
    ensures 0.0 <= u.SpeedAlong(dir, sqrt)
    ensures u.position.Plus(dir.Times(u.SpeedAlong(dir, sqrt))).DistToSquared(u.speedCenter) == u.speedRadius * u.speedRadius
  {
    var R, d := u.speedRadius, u.Offset();
    DotCrossSquares(u.direction, dir);
    assert R - d == u.maxBackwardSpeed && R + d == u.maxForwardSpeed;
    MulNonNegative(R - d, R + d);
    assert d * d <= R * R by {
      assert (R - d) * (R + d) == R * R - d * d;
    }
    ReachSolves(d, R, u.direction.Dot(dir), u.direction.Cross(dir), sqrt);
    LandingDistance(u.position, u.direction, dir, u.SpeedAlong(dir, sqrt), d);
  }

  /** Straight ahead the corrected speed is the forward speed, and straight
      back it is the backward speed. */
  lemma SpeedAlongEnds(u: Unit, sqrt: real -> real)
    requires IsSqrt(sqrt) && u.CircleSet()
    ensures u.SpeedAlong(u.direction, sqrt) == u.maxForwardSpeed
    ensures u.SpeedAlong(u.direction.Times(-1.0), sqrt) == u.maxBackwardSpeed
  {
    var a := u.direction;
    var back := a.Times(-1.0);
    assert a.Dot(a) == 1.0 && a.Cross(a) == 0.0;
    assert a.Dot(back) == -1.0 && a.Cross(back) == 0.0;
    ReachStraight(u.Offset(), u.speedRadius, sqrt);
  }

  /** The law-of-cosines chord at angle `π` (cosine -1) is the sum of the
      two sides. */
  lemma ChordStraight(d: real, radius: real, sqrt: real -> real)
    requires IsSqrt(sqrt) && 0.0 <= d + radius
    ensures Chord(d, radius, -1.0, sqrt) == d + radius
  {
    var y := d * d + radius * radius - 2.0 * d * radius * -1.0;
    var t := d + radius;
    assert Chord(d, radius, -1.0, sqrt) == sqrt(y);
    assert y == t * t;
    SqrtOfSquare(sqrt, t);
    assert sqrt(y) == sqrt(t * t);
  }

  /** As written, `getVelocity` gives the direction straight back the
      forward speed: `asin(0)` is 0 whichever way `dir` points, so the angle
      is `π` as for straight ahead. */
  lemma SpeedAlongBackwardAsWritten(u: Unit, sqrt: real -> real, cos: real -> real, asin: real -> real)
    requires IsSqrt(sqrt) && IsCosine(cos) && u.CircleSet() && u.speedRadius != 0.0
    requires asin(0.0) == 0.0 && cos(Pi) == -1.0
    ensures u.SpeedAlongAsWritten(u.direction.Times(-1.0), sqrt, cos, asin) == u.maxForwardSpeed
    ensures u.maxBackwardSpeed < u.maxForwardSpeed ==>
              u.SpeedAlongAsWritten(u.direction.Times(-1.0), sqrt, cos, asin) != u.SpeedAlong(u.direction.Times(-1.0), sqrt)
  {
    var R := u.speedRadius;
    var d := (u.maxForwardSpeed - u.maxBackwardSpeed) / 2.0;
    var back := u.direction.Times(-1.0);
    var sinA := Clamp(u.direction.Cross(back), -1.0, 1.0);
    assert sinA == 0.0;
    var sinB := d * sinA / R;
    assert sinB == 0.0;
    var angle := Pi - asin(sinA) - asin(sinB);
    assert angle == Pi;
    ChordStraight(d, R, sqrt);
    assert u.SpeedAlongAsWritten(back, sqrt, cos, asin) == Chord(d, R, cos(angle), sqrt);
    SpeedAlongEnds(u, sqrt);
  }

  /** `calcSpeedCircle` on a unit facing along a unit vector, with valid
      constants and aim, sets the circle up as `CircleSet` describes. */
  lemma CalcSetsCircle(c: Constants, u: Unit)
    requires c.Valid() && 0.0 <= u.aim <= 1.0 && u.direction.LenSquared() == 1.0
    requires u.weapon.Some? ==> c.IsWeapon(u.weapon.value)
    ensures u.CalcSpeedCircle(c).CircleSet()
  {
    SpeedCircleBounds(c, u.weapon, u.aim);
    var m := if u.weapon.Some? then c.weapons[u.weapon.value].aimMovementSpeedModifier else 1.0;
    if u.weapon.Some? {
      assert c.weapons[u.weapon.value] in c.weapons;
    }
    MulNonNegative(m, c.maxUnitForwardSpeed);
    MulNonNegative(m, c.maxUnitBackwardSpeed);
  }

  /** `hasHit(obstacle)` misses no collision: a unit that moves, is outside
      the combined circle now, and reaches its edge within the coming tick
      gets a time. */
  lemma HitTimeReported(u: Unit, obstacle: Obstacle, c: Constants, sqrt: real -> real)
    requires IsSqrt(sqrt) && c.Valid()
    requires 1e-8 <= u.velocity.LenSquared()
    requires u.position.Minus(obstacle.position).LenSquared()
             > (obstacle.radius + c.unitRadius) * (obstacle.radius + c.unitRadius)
    requires exists t :: 0.0 <= t <= c.TickTime()
               && u.position.Minus(obstacle.position).Plus(u.velocity.Times(t)).LenSquared()
                  == (obstacle.radius + c.unitRadius) * (obstacle.radius + c.unitRadius)
    ensures u.HitTime(obstacle, c, sqrt).Some?
  {
    var c0 := u.position.Minus(obstacle.position);
    var radius := obstacle.radius + c.unitRadius;
    assert 1e-8 <= Quadratic(c0, u.velocity, radius).0;
    ContactReached(c0, u.velocity, radius, c.TickTime(), sqrt);
    assert c.TickTime() == 1.0 / c.ticksPerSecond;
  }

  /** A point outside the circle that reaches its edge within `[0, window]`
      has a non-negative discriminant, and the smaller root lies in the
      window. */
  lemma ContactReached(c0: Vec2, v: Vec2, radius: real, window: real, sqrt: real -> real)
    requires IsSqrt(sqrt)
    ensures var (a, b, cc) := Quadratic(c0, v, radius);
            (&& 1e-8 <= a && c0.LenSquared() > radius * radius
             && exists t :: 0.0 <= t <= window && c0.Plus(v.Times(t)).LenSquared() == radius * radius)
            ==> 0.0 <= Discriminant(a, b, cc) && 0.0 <= SmallerRoot(a, b, Discriminant(a, b, cc), sqrt) <= window
  {
    var (a, b, cc) := Quadratic(c0, v, radius);
    var d := Discriminant(a, b, cc);
    if && 1e-8 <= a && c0.LenSquared() > radius * radius
       && exists t :: 0.0 <= t <= window && c0.Plus(v.Times(t)).LenSquared() == radius * radius
    {
      var t0 :| 0.0 <= t0 <= window && c0.Plus(v.Times(t0)).LenSquared() == radius * radius;
      ContactRoot(c0, v, radius, t0, a, b, cc);
      assert c0.LenSquared() == c0.x * c0.x + c0.y * c0.y;
      RootDiscriminant(a, b, cc, t0);
      var t1 := SmallerRoot(a, b, d, sqrt);
      SmallerRootFormula(a, b, sqrt(d), t1);
      SmallerRootBetween(a, b, cc, sqrt(d), t1, t0);
      assert 0.0 <= t1 <= window;
    }
  }

  /** A moment at which `c0 + t v` is on the circle is a root of the
      contact quadratic. */
  lemma ContactRoot(c0: Vec2, v: Vec2, radius: real, t: real, a: real, b: real, cc: real)
    requires c0.Plus(v.Times(t)).LenSquared() == radius * radius
    requires a == v.x * v.x + v.y * v.y && b == 2.0 * c0.x * v.x + 2.0 * c0.y * v.y
    requires cc == c0.x * c0.x + c0.y * c0.y - radius * radius
    ensures a * t * t + b * t + cc == 0.0
  {
    MotionLenSquared(c0, v, t);
  }

  /** The smaller root of the contact quadratic, taken when it is not
      negative, is the first moment `c0 + t v` is at distance `radius`. */
  lemma SmallerRootContact(c0: Vec2, v: Vec2, radius: real, s: real, t: real)
    requires 1e-8 <= v.x * v.x + v.y * v.y
    requires 0.0 <= s
    requires s * s == (2.0 * c0.x * v.x + 2.0 * c0.y * v.y) * (2.0 * c0.x * v.x + 2.0 * c0.y * v.y)
                      - 4.0 * (v.x * v.x + v.y * v.y) * (c0.x * c0.x + c0.y * c0.y - radius * radius)
    requires t == (-(2.0 * c0.x * v.x + 2.0 * c0.y * v.y) - s) / 2.0 / (v.x * v.x + v.y * v.y)
    ensures c0.Plus(v.Times(t)).LenSquared() == radius * radius
    ensures forall u :: 0.0 <= u < t ==> c0.Plus(v.Times(u)).LenSquared() > radius * radius
  {
    var a := v.x * v.x + v.y * v.y;
    var b := 2.0 * c0.x * v.x + 2.0 * c0.y * v.y;
    var cc := c0.x * c0.x + c0.y * c0.y - radius * radius;
    SmallerRootFormula(a, b, s, t);
    QuadraticRoot(a, b, cc, -s, t);
    MotionLenSquared(c0, v, t);
    forall u | 0.0 <= u < t
      ensures c0.Plus(v.Times(u)).LenSquared() > radius * radius
    {
      NoContactBefore(c0, v, radius, s, t, u);
    }
  }

  /** Before the smaller root the point is still outside the circle. */
  lemma NoContactBefore(c0: Vec2, v: Vec2, radius: real, s: real, t: real, u: real)
    requires 1e-8 <= v.x * v.x + v.y * v.y
    requires 0.0 <= s
    requires s * s == (2.0 * c0.x * v.x + 2.0 * c0.y * v.y) * (2.0 * c0.x * v.x + 2.0 * c0.y * v.y)
                      - 4.0 * (v.x * v.x + v.y * v.y) * (c0.x * c0.x + c0.y * c0.y - radius * radius)
    requires t == (-(2.0 * c0.x * v.x + 2.0 * c0.y * v.y) - s) / 2.0 / (v.x * v.x + v.y * v.y)
    requires 0.0 <= u < t
    ensures c0.Plus(v.Times(u)).LenSquared() > radius * radius
  {
    var a := v.x * v.x + v.y * v.y;
    var b := 2.0 * c0.x * v.x + 2.0 * c0.y * v.y;
    var cc := c0.x * c0.x + c0.y * c0.y - radius * radius;
    SmallerRootFormula(a, b, s, t);
    NoEarlierRoot(a, b, cc, s, t, u);
    MotionLenSquared(c0, v, u);
  }
}
