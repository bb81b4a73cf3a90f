/** The bot's per-tick decisions (source/MyStrategy.cpp): heal when a shield
    potion fits, pick up the nearest useful loot inside the zone, fight the
    nearest enemy, otherwise dodge or walk; one order per own unit. */
module Strategy {
  import opened Base
  import opened Vectors
  import opened Rules
  import opened Units
  import opened Projectiles
  import opened Simulation

  /** The three kinds of loot item, with the fields the bot reads. */
  datatype Item =
    | Weapon(typeIndex: int)
    | ShieldPotions(amount: int)
    | Ammo(weaponTypeIndex: int, amount: int)

  /** Loot lying on the ground; its item may be missing. */
  datatype Loot = Loot(id: int, position: Vec2, item: Option<Item>)

  datatype Zone = Zone(currentCenter: Vec2, currentRadius: real, nextCenter: Vec2, nextRadius: real)

  /** The actions an order can carry. */
  datatype ActionOrder = Pickup(loot: int) | UseShieldPotion | Aim(shoot: bool)

  datatype UnitOrder = UnitOrder(targetVelocity: Vec2, targetDirection: Vec2, action: Option<ActionOrder>)

  /** `double min_dist = 1e9`: the distance every nearest-search starts
      from. Candidates this far away or farther are never chosen. */
  const FarAway: real := 1000000000.0

  /** `v.norm()` where the result is used as a direction. The C++ division by
      a zero length yields NaN; here a zero vector stays zero. */
  function Direction(v: Vec2, sqrt: real -> real): (r: Vec2)
    requires IsSqrt(sqrt)
    ensures 0.0 < v.LenSquared() ==> r.LenSquared() == 1.0 && r.Times(v.Len(sqrt)) == v
    ensures v.LenSquared() == 0.0 ==> r == Zero
  {
    if 0.0 < v.LenSquared() then v.Normalized(sqrt) else Zero
  }

  /** `healing`: drink a shield potion, facing the map's centre and moving
      forward at full speed, exactly when a whole potion's worth of shield
      is missing and a potion is at hand. */
  function Healing(c: Constants, unit: Unit): (r: Option<UnitOrder>)
    ensures r.Some? <==> c.maxShield - unit.shield >= c.shieldPerPotion && unit.shieldPotions > 0
    ensures r.Some? ==> && r.value.action == Some(UseShieldPotion)
                        && unit.position.Plus(r.value.targetDirection) == Zero
                        && r.value.targetVelocity == unit.direction.Times(c.maxUnitForwardSpeed)
  {
    if c.maxShield - unit.shield >= c.shieldPerPotion && unit.shieldPotions > 0 then
      Some(UnitOrder(unit.direction.Times(c.maxUnitForwardSpeed), Vec2(-unit.position.x, -unit.position.y),
                     Some(UseShieldPotion)))
    else None
  }

  /** The weapon indices the looting rules look up exist: the unit's own
      weapon, and the weapon of every ammo or weapon item, both among the
      constants' weapons and among the unit's ammo counts. */
  predicate Indexed(c: Constants, unit: Unit, loots: seq<Loot>) {
    && (unit.weapon.Some? ==> c.IsWeapon(unit.weapon.value))
    && forall l :: l in loots && l.item.Some? ==> ItemIndexed(c, unit, l.item.value)
  }

  predicate ItemIndexed(c: Constants, unit: Unit, item: Item) {
    match item
    case Weapon(i) => c.IsWeapon(i) && i < |unit.ammo|
    case Ammo(i, _) => c.IsWeapon(i) && i < |unit.ammo|
    case ShieldPotions(_) => true
  }

  /** Whether the unit wants the item, leaving distance aside: potions while
      it holds fewer than half the maximum; ammo and weapons only while its
      health exceeds 70% and never for the Magic wand; ammo while below 90%
      of the weapon's maximum; a weapon when the unit has none, when it holds
      the Magic wand and has ammo for the new one, or when the new one is a
      Bow with ammo and the current one is not. */
  predicate Wanted(c: Constants, unit: Unit, item: Item)
    requires ItemIndexed(c, unit, item) && (unit.weapon.Some? ==> c.IsWeapon(unit.weapon.value))
  {
    match item
    case ShieldPotions(_) =>
      unit.shieldPotions < TruncDiv(c.maxShieldPotionsInInventory, 2)
    case Ammo(i, _) =>
      && unit.health > c.unitHealth * 0.7
      && c.weapons[i].name != MagicWand
      && (unit.ammo[i] as real) < 0.9 * (c.weapons[i].maxInventoryAmmo as real)
    case Weapon(i) =>
      && unit.health > c.unitHealth * 0.7
      && c.weapons[i].name != MagicWand
      && (|| unit.weapon.None?
          || (unit.ammo[i] > 0 && c.weapons[unit.weapon.value].name == MagicWand)
          || (c.weapons[i].name == Bow && unit.ammo[i] > 0 && c.weapons[unit.weapon.value].name != Bow))
  }

  /** The state of a nearest-search: the index chosen so far and its
      distance (`FarAway` before any choice). */
  datatype Choice = Choice(index: Option<nat>, minDist: real)

  /** The loot search over the first `n` entries. An entry replaces the
      choice when it has an item the unit wants and is no farther than the
      choice, so among equally near entries the later one wins. */
  function LootScan(c: Constants, loots: seq<Loot>, unit: Unit, n: nat): (r: Choice)
    requires n <= |loots| && Indexed(c, unit, loots)
    ensures r.minDist <= FarAway
    ensures r.index.Some? ==> && r.index.value < n
                              && loots[r.index.value].item.Some?
                              && Wanted(c, unit, loots[r.index.value].item.value)
                              && r.minDist == loots[r.index.value].position.DistToSquared(unit.position)
    ensures r.index.None? ==> r.minDist == FarAway
  {
    if n == 0 then Choice(None, FarAway)
    else
      var r := LootScan(c, loots, unit, n - 1);
      var loot := loots[n - 1];
      assert loot in loots;
      var d := loot.position.DistToSquared(unit.position);
      if loot.item.Some? && d <= r.minDist && Wanted(c, unit, loot.item.value) then Choice(Some(n - 1), d)
      else r
  }

  /** The loot entry qualifies: it has an item the unit wants, nearer than
      `FarAway`. */
  predicate LootQualifies(c: Constants, unit: Unit, loot: Loot)
    requires loot.item.Some? ==> ItemIndexed(c, unit, loot.item.value)
    requires unit.weapon.Some? ==> c.IsWeapon(unit.weapon.value)
  {
    loot.item.Some? && Wanted(c, unit, loot.item.value) && loot.position.DistToSquared(unit.position) <= FarAway
  }

  /** `looting`: for the chosen loot strictly inside the current zone, walk
      toward it at full speed while it is at least a unit radius away, and
      otherwise stand and pick it up. */
  function LootOrder(c: Constants, loots: seq<Loot>, unit: Unit, zone: Zone, sqrt: real -> real): (r: Option<UnitOrder>)
    requires Indexed(c, unit, loots) && IsSqrt(sqrt)
    ensures loots == [] ==> r.None?
    ensures r.Some? ==>
              var ch := LootScan(c, loots, unit, |loots|);
              && ch.index.Some?
              && var loot := loots[ch.index.value];
              && zone.currentCenter.DistToSquared(loot.position) < zone.currentRadius * zone.currentRadius
              && r.value.targetDirection == Direction(loot.position.Minus(unit.position), sqrt)
              && (ch.minDist >= c.unitRadius * c.unitRadius ==>
                    r.value == UnitOrder(r.value.targetDirection.Times(c.maxUnitForwardSpeed), r.value.targetDirection, None))
              && (ch.minDist < c.unitRadius * c.unitRadius ==>
                    r.value == UnitOrder(Zero, r.value.targetDirection, Some(Pickup(loot.id))))
    ensures r.None? && loots != [] ==>
              var ch := LootScan(c, loots, unit, |loots|);
              ch.index.None? || zone.currentCenter.DistToSquared(loots[ch.index.value].position) >= zone.currentRadius * zone.currentRadius
  {
    if loots == [] then None
    else
      var ch := LootScan(c, loots, unit, |loots|);
      if ch.index.None? then None
      else
        var loot := loots[ch.index.value];
        if zone.currentCenter.DistToSquared(loot.position) >= zone.currentRadius * zone.currentRadius then None
        else
          var dir := Direction(loot.position.Minus(unit.position), sqrt);
          if ch.minDist >= c.unitRadius * c.unitRadius then Some(UnitOrder(dir.Times(c.maxUnitForwardSpeed), dir, None))
          else Some(UnitOrder(Zero, dir, Some(Pickup(loot.id))))
  }

  /** The chosen loot is no farther than any qualifying entry, and no
      qualifying entry goes unconsidered: the search chooses nothing only
      when no entry qualifies. */
  lemma {:induction false} LootScanNearest(c: Constants, loots: seq<Loot>, unit: Unit, n: nat)
    requires n <= |loots| && Indexed(c, unit, loots)
    ensures forall k :: 0 <= k < n && LootQualifies(c, unit, loots[k]) ==>
              && LootScan(c, loots, unit, n).index.Some?
              && LootScan(c, loots, unit, n).minDist <= loots[k].position.DistToSquared(unit.position)
    ensures LootScan(c, loots, unit, n).index.Some? ==> LootQualifies(c, unit, loots[LootScan(c, loots, unit, n).index.value])
  {
    if n > 0 {
      LootScanNearest(c, loots, unit, n - 1);
      assert loots[n - 1] in loots;
    }
  }

  /** Among equally near entries the later one wins: every qualifying entry
      after the chosen one is strictly farther. */
  lemma {:induction false} LootScanLaterFarther(c: Constants, loots: seq<Loot>, unit: Unit, n: nat)
    requires n <= |loots| && Indexed(c, unit, loots)
    requires LootScan(c, loots, unit, n).index.Some?
    ensures var ch := LootScan(c, loots, unit, n);
            forall k :: ch.index.value < k < n && LootQualifies(c, unit, loots[k]) ==>
              ch.minDist < loots[k].position.DistToSquared(unit.position)
  {
    var ch := LootScan(c, loots, unit, n);
    var prev := LootScan(c, loots, unit, n - 1);
    assert loots[n - 1] in loots;
    if ch != prev {
      assert ch.index.value == n - 1;
    } else {
      LootScanLaterFarther(c, loots, unit, n - 1);
      var loot := loots[n - 1];
      if LootQualifies(c, unit, loot) {
        assert loot.position.DistToSquared(unit.position) > prev.minDist;
      }
    }
  }

  /** The Magic wand and its ammo are never chosen, nor is an entry without
      an item. */
  lemma NeverMagicWand(c: Constants, loots: seq<Loot>, unit: Unit)
    requires Indexed(c, unit, loots)
    requires LootScan(c, loots, unit, |loots|).index.Some?
    ensures var item := loots[LootScan(c, loots, unit, |loots|).index.value].item;
            && item.Some?
            && (item.value.Ammo? ==> c.weapons[item.value.weaponTypeIndex].name != MagicWand)
            && (item.value.Weapon? ==> c.weapons[item.value.typeIndex].name != MagicWand)
  {
  }

  /** `enemies`: the units of other players, in order. */
  function Enemies(units: seq<Unit>, myId: int): (r: seq<Unit>)
    ensures forall u :: u in r <==> u in units && u.playerId != myId
    ensures |r| <= |units|
  {
    if units == [] then []
    else
      var init, last := units[..|units| - 1], units[|units| - 1];
      assert units == init + [last];
      Enemies(init, myId) + (if last.playerId != myId then [last] else [])
  }

  /** The projectiles shot by other players, in order. */
  function Hostile(projectiles: seq<Projectile>, myId: int): (r: seq<Projectile>)
    ensures forall p :: p in r <==> p in projectiles && p.shooterPlayerId != myId
  {
    if projectiles == [] then []
    else
      var init, last := projectiles[..|projectiles| - 1], projectiles[|projectiles| - 1];
      assert projectiles == init + [last];
      Hostile(init, myId) + (if last.shooterPlayerId != myId then [last] else [])
  }

  /** `threats` after `k` own units: it is never cleared, so every own unit
      appends the hostile projectiles again. */
  function Threats(projectiles: seq<Projectile>, myId: int, k: nat): (r: seq<Projectile>)
    ensures forall p :: p in r ==> p in Hostile(projectiles, myId)
    ensures |r| == k * |Hostile(projectiles, myId)|
  {
    if k == 0 then [] else Threats(projectiles, myId, k - 1) + Hostile(projectiles, myId)
  }

  /** One more own unit appends the hostile projectiles once more. */
  lemma ThreatsStep(projectiles: seq<Projectile>, myId: int, k: nat)
    ensures Threats(projectiles, myId, k + 1) == Threats(projectiles, myId, k) + Hostile(projectiles, myId)
  {
  }

  /** The number of own units among `units`. */
  function OwnCount(units: seq<Unit>, myId: int): nat {
    if units == [] then 0
    else OwnCount(units[..|units| - 1], myId) + (if units[|units| - 1].playerId == myId then 1 else 0)
  }

  /** The enemy search over the first `n` enemies. An enemy replaces the
      choice only when strictly nearer, so among equally near enemies the
      earlier one wins. */
  function EnemyScan(enemies: seq<Unit>, pos: Vec2, n: nat): (r: Choice)
    requires n <= |enemies|
    ensures r.minDist <= FarAway
    ensures r.index.Some? ==> && r.index.value < n
                              && r.minDist == enemies[r.index.value].position.DistToSquared(pos)
    ensures r.index.None? ==> r.minDist == FarAway
  {
    if n == 0 then Choice(None, FarAway)
    else
      var r := EnemyScan(enemies, pos, n - 1);
      var d := enemies[n - 1].position.DistToSquared(pos);
      if d < r.minDist then Choice(Some(n - 1), d) else r
  }

  /** The chosen enemy is no farther than any enemy nearer than `FarAway`,
      and one is chosen whenever such an enemy exists; every enemy before the
      chosen one is strictly farther. */
  lemma {:induction false} EnemyScanNearest(enemies: seq<Unit>, pos: Vec2, n: nat)
    requires n <= |enemies|
    ensures var ch := EnemyScan(enemies, pos, n);
            forall k :: 0 <= k < n && enemies[k].position.DistToSquared(pos) < FarAway ==>
              ch.index.Some? && ch.minDist <= enemies[k].position.DistToSquared(pos)
    ensures var ch := EnemyScan(enemies, pos, n);
            ch.index.Some? ==> forall k :: 0 <= k < ch.index.value ==> ch.minDist < enemies[k].position.DistToSquared(pos)
  {
    if n > 0 {
      EnemyScanNearest(enemies, pos, n - 1);
    }
  }

  /** The bullet a unit aiming with its weapon would fire now: from the edge
      of its circle along its direction, at the weapon's speed and with its
      lifetime. */
  function Bullet(c: Constants, unit: Unit, myId: int): (b: Projectile)
    requires unit.weapon.Some? && c.IsWeapon(unit.weapon.value)
    ensures b.weaponTypeIndex == unit.weapon.value && c.IsWeapon(b.weaponTypeIndex)
    ensures b.id == -1 && b.shooterId == unit.id && b.shooterPlayerId == myId && !b.destroyed
    ensures b.position == unit.position.Plus(unit.direction.Times(c.unitRadius))
    ensures b.velocity == unit.direction.Times(c.weapons[unit.weapon.value].projectileSpeed)
    ensures b.lifeTime == c.weapons[unit.weapon.value].projectileLifeTime
    ensures c.Valid() && 0.0 < unit.direction.LenSquared() ==> 0.0 < b.velocity.LenSquared()
  {
    var w := c.weapons[unit.weapon.value];
    assert w in c.weapons;
    ScaledNonZero(unit.direction, w.projectileSpeed);
    Projectile(-1, unit.weapon.value, unit.id, myId, unit.position.Plus(unit.direction.Times(c.unitRadius)),
               unit.direction.Times(w.projectileSpeed), w.projectileLifeTime, false)
  }

  /** A positive multiple of a non-zero vector is non-zero. */
  lemma ScaledNonZero(v: Vec2, s: real)
    ensures 0.0 < v.LenSquared() && 0.0 < s ==> 0.0 < v.Times(s).LenSquared()
  {
    if 0.0 < v.LenSquared() && 0.0 < s {
      var l := v.LenSquared();
      MulPositive(s, l);
      MulPositive(s, s * l);
      assert v.Times(s).LenSquared() == s * (s * l);
    }
  }

  /** The obstacle blocks the bullet: it cannot be shot through and the
      bullet's path meets it. */
  predicate Blocks(b: Projectile, o: Obstacle, sqrt: real -> real)
    requires IsSqrt(sqrt) && 0.0 < b.velocity.LenSquared()
  {
    !o.canShootThrough && b.IntersectCircle(o.position, o.radius, sqrt)
  }

  /** How far the bullet is from the obstacle's edge. */
  function EdgeDistance(b: Projectile, o: Obstacle, sqrt: real -> real): real
    requires IsSqrt(sqrt)
  {
    o.position.DistTo(b.position, sqrt) - o.radius
  }

  /** The nearest blocking obstacle among the first `n`; an obstacle
      replaces the choice only when strictly nearer. The choice is no
      farther than any blocking obstacle nearer than `FarAway`, and one is
      chosen whenever such an obstacle exists. */
  function ObstacleScan(c: Constants, b: Projectile, sqrt: real -> real, n: nat): (r: Choice)
    requires IsSqrt(sqrt) && 0.0 < b.velocity.LenSquared() && n <= |c.obstacles|
    ensures r.minDist <= FarAway
    ensures r.index.Some? ==> && r.index.value < n
                              && Blocks(b, c.obstacles[r.index.value], sqrt)
                              && r.minDist == EdgeDistance(b, c.obstacles[r.index.value], sqrt)
                              && r.minDist < FarAway
    ensures r.index.None? ==> r.minDist == FarAway
    ensures forall k :: 0 <= k < n && Blocks(b, c.obstacles[k], sqrt) && EdgeDistance(b, c.obstacles[k], sqrt) < FarAway ==>
              r.index.Some? && r.minDist <= EdgeDistance(b, c.obstacles[k], sqrt)
  {
    if n == 0 then Choice(None, FarAway)
    else
      var r := ObstacleScan(c, b, sqrt, n - 1);
      var o := c.obstacles[n - 1];
      if !Blocks(b, o, sqrt) then r
      else
        var d := EdgeDistance(b, o, sqrt);
        if d < r.minDist then Choice(Some(n - 1), d) else r
  }

  /** The aim flag: fire exactly when the aim is complete, the bullet's path
      reaches the enemy within its lifetime, and no blocking obstacle's edge
      is nearer than the enemy's. */
  function Shooting(c: Constants, unit: Unit, enemy: Unit, myId: int, sqrt: real -> real): (r: bool)
    requires c.Valid() && IsSqrt(sqrt)
    requires unit.weapon.Some? && c.IsWeapon(unit.weapon.value) && 0.0 < unit.direction.LenSquared()
    ensures r <==> && Abs(1.0 - unit.aim) < 1e-6
                   && var b := Bullet(c, unit, myId);
                   && b.IntersectUnit(enemy, c, sqrt)
                   && forall o :: o in c.obstacles && Blocks(b, o, sqrt) && EdgeDistance(b, o, sqrt) < FarAway ==>
                        b.position.DistTo(enemy.position, sqrt) - c.unitRadius <= EdgeDistance(b, o, sqrt)
  {
    if !(Abs(1.0 - unit.aim) < 1e-6) then false
    else
      var b := Bullet(c, unit, myId);
      var ch := ObstacleScan(c, b, sqrt, |c.obstacles|);
      var distToEnemy := b.position.DistTo(enemy.position, sqrt) - c.unitRadius;
      assert ch.index.Some? ==> c.obstacles[ch.index.value] in c.obstacles;
      b.IntersectUnit(enemy, c, sqrt) && (ch.index.None? || distToEnemy <= ch.minDist)
  }

  /** `dodging`: keep the current velocity when nothing threatens the unit,
      otherwise take the velocity one tick of simulation finds best. */
  function DodgeVelocity(e: Env, threats: seq<Projectile>, unit: Unit): Vec2
    requires e.Valid() && Armed(e.c, threats)
  {
    if threats == [] then unit.velocity else Outlook(e, unit, threats, 1).0
  }

  /** Under threat, the dodge velocity is the velocity of a candidate whose
      damage over the coming tick is least, or (0, 0) when no candidate
      comes below the initial `min_damage`. */
  lemma DodgeIsLeast(e: Env, threats: seq<Projectile>, unit: Unit)
    requires e.Valid() && Armed(e.c, threats)
    requires threats != []
    ensures var v := DodgeVelocity(e, threats, unit);
            || (v == Zero && forall j :: 0 <= j < Directions ==> NoCandidate <= Total(e, unit, threats, 1, j))
            || exists k :: 0 <= k < Directions && v == CandidateVelocity(e, unit, k)
                 && forall j :: 0 <= j < Directions ==> Total(e, unit, threats, 1, k) <= Total(e, unit, threats, 1, j)
  {
    OutlookIsLeast(e, unit, threats, 1);
    var r := Outlook(e, unit, threats, 1);
    if r != (Zero, NoCandidate) {
      var k :| 0 <= k < Directions && r == (CandidateVelocity(e, unit, k), Total(e, unit, threats, 1, k));
      assert DodgeVelocity(e, threats, unit) == CandidateVelocity(e, unit, k);
    }
  }

  /** What an own unit needs for the decisions: a usable weapon index, aim
      within [0, 1], a facing direction, and loot indices that exist. */
  predicate Ready(c: Constants, unit: Unit, loots: seq<Loot>) {
    && (unit.weapon.Some? ==> c.IsWeapon(unit.weapon.value) && unit.weapon.value < |unit.ammo|)
    && 0.0 <= unit.aim <= 1.0
    && 0.0 < unit.direction.LenSquared()
    && Indexed(c, unit, loots)
  }

  /** The order for one own unit, given its state after `calcSpeedCircle`:
      attack the nearest enemy when armed, healthy and the enemy is within
      half the view distance; otherwise act peacefully. */
  function Decide(e: Env, myId: int, unit: Unit, enemies: seq<Unit>, threats: seq<Projectile>,
                  loots: seq<Loot>, zone: Zone): UnitOrder
    requires e.Valid() && Armed(e.c, threats) && Ready(e.c, unit, loots)
  {
    var ne := EnemyScan(enemies, unit.position, |enemies|);
    var direction := DodgeVelocity(e, threats, unit);
    if Attacks(e.c, unit, ne) then
      var enemy := enemies[ne.index.value];
      UnitOrder(direction, enemy.position.Minus(unit.position), Some(Aim(Shooting(e.c, unit, enemy, myId, e.sqrt))))
    else Peaceful(e, unit, enemies, ne, threats, direction, loots, zone)
  }

  /** The attack condition: an enemy was found, the unit's weapon has ammo,
      its health exceeds half the maximum, and the enemy is within half the
      view distance. */
  predicate Attacks(c: Constants, unit: Unit, ne: Choice)
    requires unit.weapon.Some? ==> 0 <= unit.weapon.value < |unit.ammo|
  {
    && ne.index.Some?
    && unit.weapon.Some? && unit.ammo[unit.weapon.value] > 0
    && unit.health > 0.5 * c.unitHealth
    && ne.minDist < c.viewDistance * c.viewDistance / 4.0
  }

  /** Without an attack: heal (steering as looting would), loot, or move:
      toward the next zone centre when no enemy and no threat is around,
      toward the nearest enemy at half speed, or at the dodge velocity;
      turning a quarter to the left. */
  function Peaceful(e: Env, unit: Unit, enemies: seq<Unit>, ne: Choice, threats: seq<Projectile>, direction: Vec2,
                    loots: seq<Loot>, zone: Zone): UnitOrder
    requires e.Valid() && Ready(e.c, unit, loots)
    requires ne.index.Some? ==> ne.index.value < |enemies|
  {
    var c := e.c;
    var heal := Healing(c, unit);
    var loot := LootOrder(c, loots, unit, zone, e.sqrt);
    if heal.Some? then
      if loot.Some? then heal.value.(targetDirection := loot.value.targetDirection,
                                     targetVelocity := loot.value.targetVelocity)
      else heal.value
    else if loot.Some? then loot.value
    else
      var d1 := if ne.index.None? && threats == [] then zone.nextCenter.Minus(unit.position).Times(c.zoneSpeed)
                else direction;
      var d2 := if ne.index.Some? then
                  Direction(enemies[ne.index.value].position.Minus(unit.position), e.sqrt).Times(c.maxUnitForwardSpeed / 2.0)
                else d1;
      UnitOrder(d2, Vec2(-unit.direction.y, unit.direction.x), None)
  }

  /** Setting the speed circle keeps a unit ready to act and gives it a
      speed circle of positive radius. */
  lemma CalcKeepsReady(c: Constants, u: Unit, loots: seq<Loot>)
    requires c.Valid() && Ready(c, u, loots)
    ensures var r := u.CalcSpeedCircle(c);
            && r.id == u.id && r.playerId == u.playerId
            && Ready(c, r, loots) && 0.0 < r.speedRadius
  {
    SpeedCircleBounds(c, u.weapon, u.aim);
  }

  /** Every own unit among `units` is ready to act. */
  predicate AllReady(c: Constants, units: seq<Unit>, myId: int, loots: seq<Loot>) {
    forall i :: 0 <= i < |units| && units[i].playerId == myId ==> Ready(c, units[i], loots)
  }

  /** A unit as `getOrder` leaves it: own units get their speed circle set,
      the others are untouched. */
  function Prepared(c: Constants, myId: int, u: Unit): (r: Unit)
    requires u.playerId == myId && u.weapon.Some? ==> c.IsWeapon(u.weapon.value)
    ensures r.id == u.id && r.playerId == u.playerId && r.Serialised() == u.Serialised()
  {
    if u.playerId == myId then u.CalcSpeedCircle(c) else u
  }

  /** Every own unit among `units` has a weapon index the constants know. */
  predicate KnownWeapons(c: Constants, units: seq<Unit>, myId: int) {
    forall j :: 0 <= j < |units| && units[j].playerId == myId && units[j].weapon.Some? ==> c.IsWeapon(units[j].weapon.value)
  }

  /** `units` as `getOrder` leaves them, one by one. */
  function PreparedUnits(c: Constants, myId: int, units: seq<Unit>): (r: seq<Unit>)
    requires KnownWeapons(c, units, myId)
    ensures |r| == |units|
  {
    if units == [] then []
    else PreparedUnits(c, myId, units[..|units| - 1]) + [Prepared(c, myId, units[|units| - 1])]
  }

  /** Each unit is prepared on its own: own units get their speed circle,
      the others are kept. */
  lemma {:induction false} PreparedUnitsAt(c: Constants, myId: int, units: seq<Unit>)
    requires KnownWeapons(c, units, myId)
    ensures forall j :: 0 <= j < |units| ==> PreparedUnits(c, myId, units)[j] == Prepared(c, myId, units[j])
  {
    if units != [] {
      PreparedUnitsAt(c, myId, units[..|units| - 1]);
    }
  }

  /** Preparing one more unit of a prefix appends it, prepared. */
  lemma PreparedUnitsStep(c: Constants, myId: int, units: seq<Unit>, i: nat)
    requires KnownWeapons(c, units, myId) && i < |units|
    ensures KnownWeapons(c, units[..i], myId) && KnownWeapons(c, units[..i + 1], myId)
    ensures PreparedUnits(c, myId, units[..i + 1]) == PreparedUnits(c, myId, units[..i]) + [Prepared(c, myId, units[i])]
  {
    assert units[..i + 1][..i] == units[..i];
  }

  /** The unit that decides an id's order, as it was before `calcSpeedCircle`,
      and the number of own units visited up to and including it: the
      threats hold the hostile projectiles that many times when it decides. */
  datatype Pick = Pick(unit: Unit, count: nat)

  /** Which own unit decides each id: `getOrder` inserts an order only under
      an id that has none, so the first own unit with that id. */
  function Plan(myId: int, units: seq<Unit>): map<int, Pick> {
    if units == [] then map[]
    else
      var prior := units[..|units| - 1];
      var u := units[|units| - 1];
      var prev := Plan(myId, prior);
      if u.playerId != myId || u.id in prev then prev
      else prev[u.id := Pick(u, OwnCount(units, myId))]
  }

  /** Every picked unit is ready to decide. */
  predicate PlanReady(c: Constants, plan: map<int, Pick>, loots: seq<Loot>) {
    forall id :: id in plan ==> Ready(c, plan[id].unit, loots)
  }

  /** The units `Plan` picks from ready own units are ready. */
  lemma {:induction false} PlanIsReady(c: Constants, myId: int, units: seq<Unit>, loots: seq<Loot>)
    requires AllReady(c, units, myId, loots)
    ensures PlanReady(c, Plan(myId, units), loots)
  {
    if units != [] {
      var prior := units[..|units| - 1];
      assert AllReady(c, prior, myId, loots) by {
        forall j | 0 <= j < |prior| && prior[j].playerId == myId ensures Ready(c, prior[j], loots) {
          assert prior[j] == units[j];
        }
      }
      PlanIsReady(c, myId, prior, loots);
    }
  }

  /** The order of a picked unit: it decides after its speed circle is set,
      with the threats as they were then. */
  function Decision(e: Env, myId: int, p: Pick, enemies: seq<Unit>, projectiles: seq<Projectile>,
                    loots: seq<Loot>, zone: Zone): UnitOrder
    requires e.Valid() && Ready(e.c, p.unit, loots) && Armed(e.c, Hostile(projectiles, myId))
  {
    CalcKeepsReady(e.c, p.unit, loots);
    Decide(e, myId, p.unit.CalcSpeedCircle(e.c), enemies, Threats(projectiles, myId, p.count), loots, zone)
  }

  /** The order of every picked unit. */
  function Decisions(e: Env, myId: int, plan: map<int, Pick>, enemies: seq<Unit>, projectiles: seq<Projectile>,
                     loots: seq<Loot>, zone: Zone): (r: map<int, UnitOrder>)
    requires e.Valid() && PlanReady(e.c, plan, loots) && Armed(e.c, Hostile(projectiles, myId))
    ensures r.Keys == plan.Keys
  {
    map id | id in plan :: Decision(e, myId, plan[id], enemies, projectiles, loots, zone)
  }

  /** Picking one more unit adds its order and changes no other. */
  lemma DecisionsUpdate(e: Env, myId: int, plan: map<int, Pick>, id: int, p: Pick, enemies: seq<Unit>,
                        projectiles: seq<Projectile>, loots: seq<Loot>, zone: Zone)
    requires e.Valid() && PlanReady(e.c, plan, loots) && Armed(e.c, Hostile(projectiles, myId))
    requires Ready(e.c, p.unit, loots)
    ensures PlanReady(e.c, plan[id := p], loots)
    ensures Decisions(e, myId, plan[id := p], enemies, projectiles, loots, zone)
            == Decisions(e, myId, plan, enemies, projectiles, loots, zone)[
                 id := Decision(e, myId, p, enemies, projectiles, loots, zone)]
  {
    var plan' := plan[id := p];
    assert PlanReady(e.c, plan', loots);
    var l := Decisions(e, myId, plan', enemies, projectiles, loots, zone);
    var r := Decisions(e, myId, plan, enemies, projectiles, loots, zone)[id := Decision(e, myId, p, enemies, projectiles, loots, zone)];
    forall k | k in plan' ensures l[k] == r[k] {
      if k != id {
        assert plan'[k] == plan[k];
      }
    }
  }

  /** The orders `getOrder` returns after going through `units`: each own
      unit, in order, sees the threats appended once per own unit so far, and
      its order is stored unless its id already has one. */
  function Orders(e: Env, myId: int, units: seq<Unit>, enemies: seq<Unit>, projectiles: seq<Projectile>,
                  loots: seq<Loot>, zone: Zone): map<int, UnitOrder>
    requires e.Valid() && AllReady(e.c, units, myId, loots) && Armed(e.c, Hostile(projectiles, myId))
  {
    PlanIsReady(e.c, myId, units, loots);
    Decisions(e, myId, Plan(myId, units), enemies, projectiles, loots, zone)
  }

  lemma OwnCountStep(units: seq<Unit>, myId: int, i: nat)
    requires i < |units|
    ensures units[..i + 1][..i] == units[..i] && units[..i + 1][i] == units[i]
    ensures OwnCount(units[..i + 1], myId) == OwnCount(units[..i], myId) + if units[i].playerId == myId then 1 else 0
  {
    assert units[..i + 1][..i] == units[..i];
  }

  /** One more unit extends the orders as `getOrder`'s loop body does. */
  lemma OrdersStep(e: Env, myId: int, units: seq<Unit>, enemies: seq<Unit>, projectiles: seq<Projectile>,
                   loots: seq<Loot>, zone: Zone, i: nat)
    requires e.Valid() && AllReady(e.c, units, myId, loots) && Armed(e.c, Hostile(projectiles, myId))
    requires i < |units|
    ensures AllReady(e.c, units[..i], myId, loots) && AllReady(e.c, units[..i + 1], myId, loots)
    ensures var prev := Orders(e, myId, units[..i], enemies, projectiles, loots, zone);
            Orders(e, myId, units[..i + 1], enemies, projectiles, loots, zone)
            == if units[i].playerId != myId || units[i].id in prev then prev
               else prev[units[i].id := Decision(e, myId, Pick(units[i], OwnCount(units[..i + 1], myId)),
                                                 enemies, projectiles, loots, zone)]
  {
    assert units[..i + 1][..i] == units[..i];
    var upTo := units[..i + 1];
    assert AllReady(e.c, upTo, myId, loots) by {
      forall j | 0 <= j < |upTo| && upTo[j].playerId == myId ensures Ready(e.c, upTo[j], loots) {
        assert upTo[j] == units[j];
      }
    }
    PlanIsReady(e.c, myId, units[..i], loots);
    PlanIsReady(e.c, myId, units[..i + 1], loots);
    if units[i].playerId == myId {
      var plan := Plan(myId, units[..i]);
      if units[i].id !in plan {
        DecisionsUpdate(e, myId, plan, units[i].id, Pick(units[i], OwnCount(units[..i + 1], myId)),
                        enemies, projectiles, loots, zone);
      }
    }
  }

  predicate FirstWithId(units: seq<Unit>, myId: int, i: nat)
    requires i < |units|
  {
    forall j :: 0 <= j < i && units[j].playerId == myId ==> units[j].id != units[i].id
  }

  /** `Plan` picks an id exactly for the own units. */
  lemma {:induction false} PlanKeys(myId: int, units: seq<Unit>)
    ensures Plan(myId, units).Keys == set u | u in units && u.playerId == myId :: u.id
  {
    if units != [] {
      var prior := units[..|units| - 1];
      var u := units[|units| - 1];
      assert units == prior + [u];
      PlanKeys(myId, prior);
      assert (set v | v in units && v.playerId == myId :: v.id)
             == (set v | v in prior && v.playerId == myId :: v.id) + (if u.playerId == myId then {u.id} else {});
    }
  }

  /** The orders are keyed by exactly the ids of the own units. */
  lemma OrdersKeys(e: Env, myId: int, units: seq<Unit>, enemies: seq<Unit>,
                   projectiles: seq<Projectile>, loots: seq<Loot>, zone: Zone)
    requires e.Valid() && AllReady(e.c, units, myId, loots) && Armed(e.c, Hostile(projectiles, myId))
    ensures Orders(e, myId, units, enemies, projectiles, loots, zone).Keys
            == set u | u in units && u.playerId == myId :: u.id
  {
    PlanIsReady(e.c, myId, units, loots);
    PlanKeys(myId, units);
  }

  /** The first own unit with an id is the one `Plan` picks for it, with the
      own units counted up to and including it. */
  lemma {:induction false} PlanFirst(myId: int, units: seq<Unit>, i: nat)
    requires i < |units| && units[i].playerId == myId && FirstWithId(units, myId, i)
    ensures var r := Plan(myId, units);
            units[i].id in r && r[units[i].id] == Pick(units[i], OwnCount(units[..i + 1], myId))
  {
    var prior := units[..|units| - 1];
    var u := units[|units| - 1];
    assert units == prior + [u];
    PlanKeys(myId, prior);
    if i == |units| - 1 {
      assert u.id !in Plan(myId, prior) by {
        forall v | v in prior && v.playerId == myId ensures v.id != u.id {
          var j :| 0 <= j < |prior| && prior[j] == v;
          assert units[j] == v;
        }
      }
      assert units[..i + 1] == units;
    } else {
      assert prior[i] == units[i];
      assert prior[..i + 1] == units[..i + 1];
      PlanFirst(myId, prior, i);
    }
  }

  /** The first own unit with a given id decides that id's order, with the
      threats appended once per own unit up to and including it. */
  lemma OrdersFirst(e: Env, myId: int, units: seq<Unit>, enemies: seq<Unit>,
                    projectiles: seq<Projectile>, loots: seq<Loot>, zone: Zone, i: nat)
    requires e.Valid() && AllReady(e.c, units, myId, loots) && Armed(e.c, Hostile(projectiles, myId))
    requires i < |units| && units[i].playerId == myId && FirstWithId(units, myId, i)
    ensures 0.0 < units[i].CalcSpeedCircle(e.c).speedRadius && Ready(e.c, units[i].CalcSpeedCircle(e.c), loots)
    ensures var r := Orders(e, myId, units, enemies, projectiles, loots, zone);
            && units[i].id in r
            && r[units[i].id] == Decide(e, myId, units[i].CalcSpeedCircle(e.c), enemies,
                                        Threats(projectiles, myId, OwnCount(units[..i + 1], myId)), loots, zone)
  {
    CalcKeepsReady(e.c, units[i], loots);
    PlanIsReady(e.c, myId, units, loots);
    PlanFirst(myId, units, i);
  }

  /** What `getOrder`'s loop has done after the first `i` units: those are
      prepared in place, the threats hold the hostile projectiles once per
      own unit among them, and the orders are theirs. */
  ghost predicate Progress(e: Env, myId: int, us: seq<Unit>, i: nat, current: seq<Unit>, threats: seq<Projectile>,
                     actions: map<int, UnitOrder>, enemies: seq<Unit>, projectiles: seq<Projectile>,
                     loots: seq<Loot>, zone: Zone)
  {
    && i <= |us|
    && e.Valid() && Armed(e.c, Hostile(projectiles, myId))
    && AllReady(e.c, us, myId, loots) && KnownWeapons(e.c, us, myId)
    && AllReady(e.c, us[..i], myId, loots) && KnownWeapons(e.c, us[..i], myId)
    && current == PreparedUnits(e.c, myId, us[..i]) + us[i..]
    && threats == Threats(projectiles, myId, OwnCount(us[..i], myId))
    && actions == Orders(e, myId, us[..i], enemies, projectiles, loots, zone)
  }

  /** Before the loop nothing is prepared, there are no threats and no
      orders. */
  lemma ProgressStart(e: Env, myId: int, us: seq<Unit>, enemies: seq<Unit>, projectiles: seq<Projectile>,
                      loots: seq<Loot>, zone: Zone)
    requires e.Valid() && Armed(e.c, Hostile(projectiles, myId)) && AllReady(e.c, us, myId, loots)
    ensures Progress(e, myId, us, 0, us, [], map[], enemies, projectiles, loots, zone)
  {
    assert us[..0] == [] && us[0..] == us;
  }

  /** After the loop every unit is prepared and the orders are all units'. */
  lemma ProgressEnd(e: Env, myId: int, us: seq<Unit>, current: seq<Unit>, threats: seq<Projectile>,
                    actions: map<int, UnitOrder>, enemies: seq<Unit>, projectiles: seq<Projectile>,
                    loots: seq<Loot>, zone: Zone)
    requires Progress(e, myId, us, |us|, current, threats, actions, enemies, projectiles, loots, zone)
    ensures KnownWeapons(e.c, us, myId)
    ensures current == PreparedUnits(e.c, myId, us)
    ensures actions == Orders(e, myId, us, enemies, projectiles, loots, zone)
  {
    assert us[..|us|] == us && us[|us|..] == [];
  }

  class MyStrategy {
    const constants: Constants
    const simulator: Simulator

    constructor (constants: Constants, env: Env)
      requires env.c == constants
      ensures this.constants == constants && simulator.env == env
    {
      this.constants := constants;
      simulator := new Simulator(env);
    }

    ghost predicate Valid() {
      simulator.env.c == constants && simulator.env.Valid() && simulator.env.Steers()
    }

    /** The body of the loot loop for entry `i`: an entry with an item the
        unit wants, no farther than the nearest so far, becomes the nearest. */
    method ConsiderLoot(loots: seq<Loot>, i: nat, myUnit: Unit, minDist: real, nearestLoot: Option<Loot>, ghost index: Option<nat>)
      returns (minDist': real, nearestLoot': Option<Loot>, ghost index': Option<nat>)
      requires Valid() && Indexed(constants, myUnit, loots) && i < |loots|
      requires LootScan(constants, loots, myUnit, i) == Choice(index, minDist)
      requires nearestLoot == if index.Some? then Some(loots[index.value]) else None
      ensures LootScan(constants, loots, myUnit, i + 1) == Choice(index', minDist')
      ensures nearestLoot' == if index'.Some? then Some(loots[index'.value]) else None
    {
      minDist', nearestLoot', index' := minDist, nearestLoot, index;
      var loot := loots[i];
      assert loot in loots;
      if loot.item.None? {
        return;
      }
      var distToLoot := loot.position.DistToSquared(myUnit.position);
      if distToLoot > minDist {
        return;
      }
      match loot.item.value {
        case ShieldPotions(_) =>
          if myUnit.shieldPotions < TruncDiv(constants.maxShieldPotionsInInventory, 2) {
            nearestLoot', minDist', index' := Some(loot), distToLoot, Some(i);
          }
        case Ammo(weaponTypeIndex, _) =>
          if myUnit.health > constants.unitHealth * 0.7 {
            if constants.weapons[weaponTypeIndex].name == MagicWand {
              return;
            }
            if (myUnit.ammo[weaponTypeIndex] as real) < 0.9 * (constants.weapons[weaponTypeIndex].maxInventoryAmmo as real) {
              nearestLoot', minDist', index' := Some(loot), distToLoot, Some(i);
            }
          }
        case Weapon(typeIndex) =>
          if myUnit.health > constants.unitHealth * 0.7 {
            if constants.weapons[typeIndex].name == MagicWand {
              return;
            }
            if || myUnit.weapon.None?
               || (myUnit.ammo[typeIndex] > 0 && constants.weapons[myUnit.weapon.value].name == MagicWand)
               || (constants.weapons[typeIndex].name == Bow && myUnit.ammo[typeIndex] > 0
                   && constants.weapons[myUnit.weapon.value].name != Bow) {
              nearestLoot', minDist', index' := Some(loot), distToLoot, Some(i);
            }
          }
      }
    }

    /** `looting`, as the loop that tracks the nearest wanted loot. */
    method Looting(loots: seq<Loot>, myUnit: Unit, zone: Zone) returns (r: Option<UnitOrder>)
      requires Valid() && Indexed(constants, myUnit, loots)
      ensures r == LootOrder(constants, loots, myUnit, zone, simulator.env.sqrt)
    {
      if |loots| == 0 {
        return None;
      }
      var minDist := FarAway;
      var nearestLoot: Option<Loot> := None;
      ghost var index: Option<nat> := None;
      for i := 0 to |loots|
        invariant LootScan(constants, loots, myUnit, i) == Choice(index, minDist)
        invariant nearestLoot == if index.Some? then Some(loots[index.value]) else None
      {
        minDist, nearestLoot, index := ConsiderLoot(loots, i, myUnit, minDist, nearestLoot, index);
      }
      if nearestLoot.None? || zone.currentCenter.DistToSquared(nearestLoot.value.position) >= zone.currentRadius * zone.currentRadius {
        return None;
      }
      var dir := nearestLoot.value.position.Minus(myUnit.position);
      dir := Direction(dir, simulator.env.sqrt);
      if minDist >= constants.unitRadius * constants.unitRadius {
        return Some(UnitOrder(dir.Times(constants.maxUnitForwardSpeed), dir, None));
      }
      return Some(UnitOrder(Zero, dir, Some(Pickup(nearestLoot.value.id))));
    }

    /** The nearest-enemy loop of `getOrder`. */
    method NearestEnemy(enemies: seq<Unit>, myUnit: Unit) returns (nearestEnemy: Option<Unit>, minDist: real)
      ensures var ch := EnemyScan(enemies, myUnit.position, |enemies|);
              && minDist == ch.minDist
              && nearestEnemy == if ch.index.Some? then Some(enemies[ch.index.value]) else None
    {
      nearestEnemy, minDist := None, FarAway;
      ghost var index: Option<nat> := None;
      for i := 0 to |enemies|
        invariant EnemyScan(enemies, myUnit.position, i) == Choice(index, minDist)
        invariant nearestEnemy == if index.Some? then Some(enemies[index.value]) else None
      {
        var distToEnemy := enemies[i].position.DistToSquared(myUnit.position);
        if distToEnemy < minDist {
          nearestEnemy, minDist, index := Some(enemies[i]), distToEnemy, Some(i);
        }
      }
    }

    /** The shooting decision of `getOrder`'s attack branch, with its loop
        over the obstacles. */
    method Shoot(myUnit: Unit, enemy: Unit, myId: int) returns (shooting: bool)
      requires Valid()
      requires myUnit.weapon.Some? && constants.IsWeapon(myUnit.weapon.value) && 0.0 < myUnit.direction.LenSquared()
      ensures shooting == Shooting(constants, myUnit, enemy, myId, simulator.env.sqrt)
    {
      shooting := false;
      if Abs(1.0 - myUnit.aim) < 1e-6 {
        var bullet := Bullet(constants, myUnit, myId);
        var minDist := FarAway;
        var nearestObst: Option<Obstacle> := None;
        ghost var index: Option<nat> := None;
        for i := 0 to |constants.obstacles|
          invariant ObstacleScan(constants, bullet, simulator.env.sqrt, i) == Choice(index, minDist)
          invariant nearestObst == if index.Some? then Some(constants.obstacles[index.value]) else None
        {
          var obstacle := constants.obstacles[i];
          if obstacle.canShootThrough {
            continue;
          }
          if !bullet.IntersectCircle(obstacle.position, obstacle.radius, simulator.env.sqrt) {
            continue;
          }
          var distToObst := obstacle.position.DistTo(bullet.position, simulator.env.sqrt) - obstacle.radius;
          if distToObst < minDist {
            nearestObst, minDist, index := Some(obstacle), distToObst, Some(i);
          }
        }
        var distToEnemy := bullet.position.DistTo(enemy.position, simulator.env.sqrt) - constants.unitRadius;
        shooting := bullet.IntersectUnit(enemy, constants, simulator.env.sqrt) && (nearestObst.None? || distToEnemy <= minDist);
      }
    }

    /** `dodging`: the simulation runs on a copy of the threats. */
    method Dodging(threats: seq<Projectile>, myUnit: Unit) returns (v: Vec2)
      requires Valid() && Armed(constants, threats)
      ensures v == DodgeVelocity(simulator.env, threats, myUnit)
    {
      if |threats| == 0 {
        return myUnit.velocity;
      }
      var bullets := new Projectile[|threats|](i requires 0 <= i < |threats| => threats[i]);
      assert bullets[..] == threats;
      var res := simulator.Simulate(myUnit, bullets, 1);
      return res.0;
    }

    /** The order for one own unit, once its speed circle is set, its nearest
        enemy found and the threats collected: the rest of `getOrder`'s loop
        body. */
    method Act(myId: int, myUnit: Unit, enemies: seq<Unit>, nearestEnemy: Option<Unit>, minDist: real,
               threats: seq<Projectile>, loots: seq<Loot>, zone: Zone)
      returns (order: UnitOrder)
      requires Valid() && Armed(constants, threats) && Ready(constants, myUnit, loots)
      requires var ch := EnemyScan(enemies, myUnit.position, |enemies|);
               && minDist == ch.minDist
               && nearestEnemy == if ch.index.Some? then Some(enemies[ch.index.value]) else None
      ensures order == Decide(simulator.env, myId, myUnit, enemies, threats, loots, zone)
    {
      var direction := Dodging(threats, myUnit);
      var hasAmmo := myUnit.weapon.Some? && myUnit.ammo[myUnit.weapon.value] > 0;
      ghost var ne := EnemyScan(enemies, myUnit.position, |enemies|);
      if nearestEnemy.Some? && hasAmmo && myUnit.health > 0.5 * constants.unitHealth
         && minDist < constants.viewDistance * constants.viewDistance / 4.0 {
        assert Attacks(constants, myUnit, ne);
        var shooting := Shoot(myUnit, nearestEnemy.value, myId);
        return UnitOrder(direction, nearestEnemy.value.position.Minus(myUnit.position), Some(Aim(shooting)));
      }
      assert !Attacks(constants, myUnit, ne);
      order := Peace(myUnit, enemies, ne, nearestEnemy, threats, direction, loots, zone);
    }

    /** The rest of the per-unit body: healing, looting, walking. */
    method Peace(myUnit: Unit, enemies: seq<Unit>, ghost ne: Choice, nearestEnemy: Option<Unit>,
                 threats: seq<Projectile>, direction: Vec2, loots: seq<Loot>, zone: Zone)
      returns (order: UnitOrder)
      requires Valid() && Ready(constants, myUnit, loots)
      requires ne.index.Some? ==> ne.index.value < |enemies|
      requires nearestEnemy == if ne.index.Some? then Some(enemies[ne.index.value]) else None
      ensures order == Peaceful(simulator.env, myUnit, enemies, ne, threats, direction, loots, zone)
    {
      var direction := direction;
      var healingOrder := Healing(constants, myUnit);
      var lootOrder := Looting(loots, myUnit, zone);
      if healingOrder.Some? {
        if lootOrder.Some? {
          healingOrder := Some(healingOrder.value.(targetDirection := lootOrder.value.targetDirection,
                                                   targetVelocity := lootOrder.value.targetVelocity));
        }
        return healingOrder.value;
      }
      if lootOrder.Some? {
        return lootOrder.value;
      }
      if nearestEnemy.None? && |threats| == 0 {
        direction := zone.nextCenter.Minus(myUnit.position).Times(constants.zoneSpeed);
      }
      if nearestEnemy.Some? {
        direction := Direction(nearestEnemy.value.position.Minus(myUnit.position), simulator.env.sqrt)
                       .Times(constants.maxUnitForwardSpeed / 2.0);
      }
      return UnitOrder(direction, Vec2(-myUnit.direction.y, myUnit.direction.x), None);
    }

    /** The threat loop of `getOrder`: every hostile projectile is appended
        to `threats`. */
    method AddThreats(threats: seq<Projectile>, projectiles: seq<Projectile>, myId: int) returns (r: seq<Projectile>)
      ensures r == threats + Hostile(projectiles, myId)
    {
      r := threats;
      for i := 0 to |projectiles|
        invariant r == threats + Hostile(projectiles[..i], myId)
      {
        assert projectiles[..i + 1] == projectiles[..i] + [projectiles[i]];
        if projectiles[i].shooterPlayerId != myId {
          r := r + [projectiles[i]];
        }
      }
      assert projectiles[..|projectiles|] == projectiles;
    }

    /** `getOrder`: the enemies are collected first; then every own unit, in
        order, gets its speed circle set in place and its order decided. An
        order is inserted only under an id that has none yet. */
    method GetOrder(myId: int, units: array<Unit>, projectiles: seq<Projectile>, loots: seq<Loot>, zone: Zone)
      returns (actions: map<int, UnitOrder>)
      requires Valid() && Armed(constants, Hostile(projectiles, myId))
      requires AllReady(constants, units[..], myId, loots)
      modifies units
      ensures KnownWeapons(constants, old(units[..]), myId)
      ensures units[..] == PreparedUnits(constants, myId, old(units[..]))
      ensures actions == Orders(simulator.env, myId, old(units[..]), Enemies(old(units[..]), myId), projectiles, loots, zone)
    {
      ghost var us := units[..];
      actions := map[];
      var enemies := CollectEnemies(units, myId);
      var threats: seq<Projectile> := [];
      ProgressStart(simulator.env, myId, us, enemies, projectiles, loots, zone);
      for i := 0 to units.Length
        invariant Progress(simulator.env, myId, us, i, units[..], threats, actions, enemies, projectiles, loots, zone)
      {
        threats, actions := Step(units, i, myId, us, enemies, threats, projectiles, actions, loots, zone);
      }
      ProgressEnd(simulator.env, myId, us, units[..], threats, actions, enemies, projectiles, loots, zone);
    }

    /** `getOrder`'s loop body for the unit at index `i`, in place. */
    method Step(units: array<Unit>, i: nat, myId: int, ghost us: seq<Unit>, enemies: seq<Unit>,
                threats: seq<Projectile>, projectiles: seq<Projectile>, actions: map<int, UnitOrder>,
                loots: seq<Loot>, zone: Zone)
      returns (threats': seq<Projectile>, actions': map<int, UnitOrder>)
      requires Valid() && i < |us|
      requires Progress(simulator.env, myId, us, i, units[..], threats, actions, enemies, projectiles, loots, zone)
      modifies units
      ensures Progress(simulator.env, myId, us, i + 1, units[..], threats', actions', enemies, projectiles, loots, zone)
    {
      PreparedUnitsStep(constants, myId, us, i);
      OrdersStep(simulator.env, myId, us, enemies, projectiles, loots, zone, i);
      ghost var done := PreparedUnits(constants, myId, us[..i]);
      assert units[i] == us[i];
      var prepared;
      prepared, threats', actions' := HandleUnit(units[i], i, myId, us, enemies, threats, projectiles, actions, loots, zone);
      Store(units, i, prepared, done, us);
    }

    /** Writes a prepared unit back in place, after the units already done. */
    static method Store(units: array<Unit>, i: nat, prepared: Unit, ghost done: seq<Unit>, ghost us: seq<Unit>)
      requires i < |us| && |done| == i && units[..] == done + us[i..]
      modifies units
      ensures units[..] == (done + [prepared]) + us[i + 1..]
    {
      ghost var before := units[..];
      units[i] := prepared;
      assert units[..] == before[i := prepared];
      ReplaceNext(done, us[i..], prepared);
      assert us[i..][1..] == us[i + 1..];
    }

    /** `getOrder`'s loop body for `unit`, the unit at index `i`: any unit of
        another player is skipped; an own unit is prepared and decides, and its
        order is stored unless its id already has one. The unit as it is to be
        written back is returned. */
    method HandleUnit(unit: Unit, ghost i: nat, myId: int, ghost us: seq<Unit>, enemies: seq<Unit>,
                threats: seq<Projectile>, projectiles: seq<Projectile>, actions: map<int, UnitOrder>,
                loots: seq<Loot>, zone: Zone)
      returns (prepared: Unit, threats': seq<Projectile>, actions': map<int, UnitOrder>)
      requires Valid() && Armed(constants, Hostile(projectiles, myId)) && AllReady(constants, us, myId, loots)
      requires i < |us| && us[i] == unit
      requires threats == Threats(projectiles, myId, OwnCount(us[..i], myId))
      requires actions == Orders(simulator.env, myId, us[..i], enemies, projectiles, loots, zone)
      ensures prepared == Prepared(constants, myId, unit)
      ensures threats' == Threats(projectiles, myId, OwnCount(us[..i + 1], myId))
      ensures actions' == Orders(simulator.env, myId, us[..i + 1], enemies, projectiles, loots, zone)
    {
      OrdersStep(simulator.env, myId, us, enemies, projectiles, loots, zone, i);
      OwnCountStep(us, myId, i);
      if unit.playerId != myId {
        return unit, threats, actions;
      }
      var order;
      prepared, threats', order := Order(myId, unit, OwnCount(us[..i], myId), enemies, threats, projectiles, loots, zone);
      actions' := if unit.id in actions then actions else actions[unit.id := order];
    }

    /** The enemy loop of `getOrder`: every unit of another player, in order. */
    method CollectEnemies(units: array<Unit>, myId: int) returns (enemies: seq<Unit>)
      ensures enemies == Enemies(units[..], myId)
    {
      enemies := [];
      for i := 0 to units.Length
        invariant enemies == Enemies(units[..i], myId)
      {
        assert units[..i + 1] == units[..i] + [units[i]];
        if units[i].playerId != myId {
          enemies := enemies + [units[i]];
        }
      }
      assert units[..units.Length] == units[..];
    }

    /** One pass of `getOrder`'s loop for an own unit, the `k + 1`-th: set
        its speed circle, find the nearest enemy, append the hostile
        projectiles to the threats, then decide the order. */
    method Order(myId: int, unit: Unit, ghost k: nat, enemies: seq<Unit>, threats: seq<Projectile>,
                 projectiles: seq<Projectile>, loots: seq<Loot>, zone: Zone)
      returns (myUnit: Unit, threats': seq<Projectile>, order: UnitOrder)
      requires Valid() && Ready(constants, unit, loots) && Armed(constants, Hostile(projectiles, myId))
      requires threats == Threats(projectiles, myId, k)
      ensures myUnit == unit.CalcSpeedCircle(constants)
      ensures threats' == Threats(projectiles, myId, k + 1)
      ensures order == Decision(simulator.env, myId, Pick(unit, k + 1), enemies, projectiles, loots, zone)
    {
      CalcKeepsReady(constants, unit, loots);
      ThreatsStep(projectiles, myId, k);
      myUnit := unit.CalcSpeedCircle(constants);
      var nearestEnemy, minDist := NearestEnemy(enemies, myUnit);
      threats' := AddThreats(threats, projectiles, myId);
      order := Act(myId, myUnit, enemies, nearestEnemy, minDist, threats', loots, zone);
    }
  }
}
