/** The game constants the bot reads. The constants record and its weapon and
    obstacle records are declared in headers that are not part of this model;
    only the fields the modelled code reads appear here. */
module Rules {
  import opened Vectors

  datatype WeaponProperties = WeaponProperties(
    name: string,
    aimMovementSpeedModifier: real,
    projectileSpeed: real,
    projectileDamage: real,
    projectileLifeTime: real,
    maxInventoryAmmo: int)

  datatype Obstacle = Obstacle(position: Vec2, radius: real, canShootThrough: bool)

  datatype Constants = Constants(
    ticksPerSecond: real,
    unitRadius: real,
    unitHealth: real,
    maxShield: real,
    shieldPerPotion: real,
    maxShieldPotionsInInventory: int,
    maxUnitForwardSpeed: real,
    maxUnitBackwardSpeed: real,
    viewDistance: real,
    zoneSpeed: real,
    weapons: seq<WeaponProperties>,
    obstacles: seq<Obstacle>)
  {
    /** What the game guarantees of its constants and the bot relies on: a
        positive tick rate (it is divided by), positive speeds and radius, and
        per weapon a positive projectile speed and an aim slow-down factor in
        (0, 1]. */
    predicate Valid() {
      && 0.0 < ticksPerSecond
      && 0.0 < unitRadius
      && 0.0 < maxUnitForwardSpeed
      && 0.0 < maxUnitBackwardSpeed
      && forall w :: w in weapons ==> 0.0 < w.aimMovementSpeedModifier <= 1.0 && 0.0 < w.projectileSpeed
    }

    /** `1 / ticksPerSecond`: the length of one tick in seconds. */
    function TickTime(): (dt: real)
      requires Valid()
      ensures 0.0 < dt && dt * ticksPerSecond == 1.0
    {
      1.0 / ticksPerSecond
    }

    predicate IsWeapon(i: int) {
      0 <= i < |weapons|
    }
  }

  const MagicWand: string := "Magic wand"
  const Bow: string := "Bow"
}
