# raic-2022 bot core in Dafny

This project models the decision core of a bot written for the Russian AI Cup
2022 battle-royale game. The bot, model/ and source/ in the C++ repository,
controls a team of units on a circular map. The map has a shrinking zone,
obstacles, loot and enemy projectiles. Each tick, `MyStrategy::getOrder` does
the following:

- It sets every own unit's *speed circle*. That is the set of velocities the
  unit can reach given its weapon and aim (`Unit::calcSpeedCircle`).
- It finds the nearest enemy.
- It collects the enemy projectiles as threats.
- It picks a dodge velocity. `Simulator::Simulate` tries 360 directions,
  moves the unit one tick along each, and keeps the least damaging one.
- It then attacks, heals, loots or walks, and stores one order per unit id.

The model covers the following:

- the geometric primitives `Vec2` and `Ray`;
- the binary encoding of vectors, units and projectiles;
- the unit's speed circle, its velocity along a direction and its collision
  time with an obstacle;
- the projectile's hit tests;
- the simulator;
- the strategy: nearest-enemy selection, healing, looting, shooting,
  dodging, and the per-unit order map of `getOrder`.

Modules, one file each:

- `Base` (base.dfy): `Option`, the square-root and trigonometry contracts,
  C++ integer conversions, real-arithmetic facts.
- `Streams` (stream.dfy): the token stream the codecs read and write. The
  stream classes themselves are not part of this model. An `OutputStream`
  appends tokens. An `InputStream` reads them and fails on a token of the
  wrong kind.
- `Vectors` (vec2.dfy): `Vec2` as a value, plus `Vec2Var` for the in-place
  operations `+=`, `norm`, `mul`, `div`, `rotate` and `clone`.
- `Rays` (ray.dfy), `Rules` (rules.dfy, the constants the bot reads),
  `Units` (unit.dfy), `Projectiles` (projectile.dfy).
- `Simulation` (simulator.dfy): the class `Simulator`. Its `Simulate` leaves
  the caller's `array<Projectile>` unchanged. Each candidate copies it, and
  `Pass` moves and destroys the bullets of that copy in place. The functions
  `Outlook`/`Sweep`/`Total` specify `Simulate`, and the lemmas state what the
  search finds.
- `Strategy` (strategy.dfy): the class `MyStrategy`. Its `GetOrder` updates
  the units array in place. The functions `PreparedUnits` and `Orders`
  specify it.

Doubles are reals. `sqrt`, `cos`, `sin` and `asin` are function parameters:
`IsSqrt` and `IsCosine` state what the proofs use of them, and
`IsSineCosine` states `sin² + cos² = 1` for the rotation lemma.

## Model

| member | source | states |
|---|---|---|
| Base.TruncToInt | source/Simulator.cpp:25 | Converting a double to `int` truncates toward zero: the result is within one of the argument, at or below a non-negative argument, at or above a negative one |
| Base.WrapToInt32 | model/Unit.cpp:82 | `(int)ammo.size()` lies in the 32-bit range and equals the size whenever the size fits |
| Base.SmallerRootBetween | model/Unit.cpp:219 | With `a > 0`, `c > 0` and a root at `t0 >= 0`, the smaller root lies in `[0, t0]` |
| Base.NoLaterRoot | model/Projectile.cpp:90 | With `a > 0` the quadratic is positive after its larger root, so the larger root is the last contact |
| Base.RootDiscriminant | model/Projectile.cpp:84 | A root `t` makes the discriminant `(2at + b)²`, hence non-negative |
| Vectors.Vec2.WriteTo | model/Vec2.cpp:15-18 | Appends exactly `x` then `y` to the output stream |
| Vectors.Vec2.ReadFrom | model/Vec2.cpp:8-12 | Reads two doubles. The result is present exactly when the stream holds them, and the position moves past them |
| Vectors.DecodeEncode | model/Vec2.cpp:8-18 | Reading back what `writeTo` wrote gives the same vector and consumes exactly its two tokens |
| Vectors.Vec2.Encode | model/Vec2.cpp:15-18 | Specification of `writeTo`: the tokens `x`, `y`. Vectors.Vec2.WriteTo appends them and Vectors.DecodeEncode reads them back |
| Vectors.Vec2.Decode | model/Vec2.cpp:8-12 | Specification of `readFrom`. Vectors.Vec2.ReadFrom follows it and Vectors.DecodeEncode inverts Vectors.Vec2.Encode with it |
| Vectors.Vec2.DistToSquared | model/Vec2.cpp:37-39 | The squared distance is non-negative and zero from a vector to itself |
| Vectors.Vec2.DistTo | model/Vec2.cpp:33-35 | The distance is non-negative and its square is the squared distance |
| Vectors.DistToSymmetric | model/Vec2.cpp:33-35 | `a.distTo(b) == b.distTo(a)` |
| Vectors.DistToSelf | model/Vec2.cpp:33-35 | A vector's distance to itself is zero |
| Vectors.DistToIsLen | model/Vec2.cpp:33-43 | `a.distTo(b)` is the length of `a - b` |
| Vectors.Vec2.Len | model/Vec2.cpp:41-43 | The length is non-negative, its square is `x² + y²`, and it is positive for a non-zero vector |
| Vectors.Vec2.Normalized | model/Vec2.cpp:45-51 | `norm` of a non-zero vector has length 1, and scaling it back by the old length restores the vector |
| Vectors.NormalizedHasUnitLength | model/Vec2.cpp:45-51 | Dividing both components by the length gives a unit vector that points the same way |
| Vectors.RotatedKeepsLength | model/Vec2.cpp:53-60 | Rotating by any angle keeps the length when `sin² + cos² = 1` |
| Vectors.DotCommutes | model/Vec2.hpp:43-45 | The dot product is symmetric |
| Vectors.DotSelfIsLenSquared | model/Vec2.hpp:43-45 | A vector dotted with itself is its squared length, so it is non-negative |
| Vectors.CrossAnticommutes | model/Vec2.hpp:47-49 | The cross product changes sign when its arguments swap, and is zero for a vector with itself |
| Vectors.Vec2.Dot | model/Vec2.hpp:43-45 | Specification: `x·x' + y·y'`. Vectors.DotCommutes and Vectors.DotSelfIsLenSquared are proved about it |
| Vectors.Vec2.Cross | model/Vec2.hpp:47-49 | Specification: `x·y' - y·x'`. Vectors.CrossAnticommutes is proved about it |
| Vectors.Vec2.Plus | model/Vec2.hpp:60-62 | Specification: componentwise sum. Vectors.PlusMinusCancel and Vectors.TimesLaws are proved about it |
| Vectors.Vec2.Minus | model/Vec2.hpp:64-66 | Specification: componentwise difference. Vectors.PlusMinusCancel is proved about it |
| Vectors.Vec2.Times | model/Vec2.hpp:68-70 | Specification: both components scaled. Vectors.TimesLaws and Vectors.TimesOverCancel are proved about it |
| Vectors.Vec2.Over | model/Vec2.cpp:69-74 | Specification: both components divided by a non-zero scalar. Vectors.TimesOverCancel is proved about it |
| Vectors.Vec2.Rotated | model/Vec2.cpp:53-60 | Specification: rotation by `angle` degrees. Vectors.RotatedKeepsLength is proved about it |
| Vectors.PlusMinusCancel | model/Vec2.hpp:60-66 | `+` and `-` undo each other |
| Vectors.TimesLaws | model/Vec2.hpp:68-70 | Scaling by 1 is the identity, by 0 gives the zero vector, distributes over `+`, and composes multiplicatively |
| Vectors.TimesOverCancel | model/Vec2.cpp:62-74 | `mul(s)` then `div(s)` restores the vector for non-zero `s` |
| Vectors.MotionLenSquared | model/Projectile.cpp:79-84 | The squared length of `c0 + t·v` is the quadratic `a t² + b t + c` whose coefficients `hasHit` computes |
| Vectors.Vec2Var.constructor | model/Vec2.cpp:4 | `Vec2()` is the origin |
| Vectors.Vec2Var.Of | model/Vec2.cpp:5 | `Vec2(x, y)` holds exactly `x` and `y` |
| Vectors.Vec2Var.AddAssign | model/Vec2.hpp:53-58 | `+=` adds the argument's old value, also when it is the same variable. It leaves a distinct argument unchanged and returns the variable itself |
| Vectors.Vec2Var.Norm | model/Vec2.cpp:45-51 | `norm` replaces the value by the unit vector along it and returns the variable itself |
| Vectors.Vec2Var.Mul | model/Vec2.cpp:62-67 | `mul` scales the value in place and returns the variable itself |
| Vectors.Vec2Var.Div | model/Vec2.cpp:69-74 | `div` divides the value in place and returns the variable itself |
| Vectors.Vec2Var.Rotate | model/Vec2.cpp:53-60 | `rotate` turns the value by `angle` degrees in place, both components computed from the old value, and returns the variable itself |
| Vectors.Vec2Var.Clone | model/Vec2.cpp:76-78 | `clone` is a new, unaliased variable with an equal value |
| Rays.MakeRay | model/Ray.cpp:5-7 | The ray keeps its origin. Its direction is a unit vector which, scaled by the given direction's length, gives that direction back |
| Rays.Ray.DistanceSqToPoint | model/Ray.cpp:9-18 | The squared distance from a point to the ray is non-negative |
| Rays.FootDistance | model/Ray.cpp:9-18 | For a point in front of the origin, the distance is the distance to the foot of the perpendicular: `|p - o|² - dirDist²` |
| Rays.DistanceSqBounds | model/Ray.cpp:9-18 | The distance to the ray is never more than the distance to its origin |
| Rays.DistanceAtOrigin | model/Ray.cpp:9-18 | The origin lies on the ray |
| Rays.Ray.DistanceToPoint | model/Ray.cpp:20-22 | The distance is non-negative and its square is `distanceSqToPoint` |
| Rays.IntersectsMonotone | model/Ray.cpp:24-26 | A ray that meets a circle also meets every concentric circle with a radius at least as large |
| Rays.Ray.IntersectsCircle | model/Ray.cpp:24-26 | Specification: the squared distance to the centre is at most `radius²`. Rays.IntersectsMonotone and Rays.DistanceAtOrigin are proved about it |
| Rules.Constants.TickTime | source/Simulator.cpp:12 | `1 / ticksPerSecond` is positive and is one tick |
| Units.Unit.WriteTo | model/Unit.cpp:49-87 | Appends the unit's fields in stream order |
| Units.Unit.WriteHead | model/Unit.cpp:50-62 | Ids, health, shield, lives and position, then the optional spawn time as a flag and a value |
| Units.Unit.WriteMotion | model/Unit.cpp:63-72 | Velocity, direction and aim, then the optional action as a flag and a value |
| Units.Unit.WriteInventory | model/Unit.cpp:73-86 | Regeneration tick, optional weapon, next shot tick, ammo and potions |
| Units.Unit.WriteAmmo | model/Unit.cpp:82-85 | The ammo count as a 32-bit `int`, then each element |
| Units.Unit.ReadFrom | model/Unit.cpp:10-46 | Reads the unit field by field. The result is present exactly when every field reads, and the position moves past them |
| Units.Unit.Encode | model/Unit.cpp:49-87 | Specification of `writeTo`. Units.Unit.WriteTo appends it and Units.DecodeEncode reads it back |
| Units.Unit.Decode | model/Unit.cpp:10-46 | Specification of `readFrom`. Units.Unit.ReadFrom follows it and Units.DecodeEncode inverts Units.Unit.Encode with it |
| Units.ReadHead | model/Unit.cpp:11-21 | Reads the first run of fields, failing exactly when the stream does not hold them |
| Units.ReadMotion | model/Unit.cpp:22-29 | Reads velocity, direction, aim and the optional action |
| Units.ReadInventory | model/Unit.cpp:30-44 | Reads the inventory run |
| Units.ReadOptDouble | model/Unit.cpp:17-21 | A flag, then the value only when the flag is true |
| Units.ReadOptAction | model/Unit.cpp:25-29 | A flag, then the action only when the flag is true |
| Units.ReadOptInt | model/Unit.cpp:31-35 | A flag, then the weapon index only when the flag is true |
| Units.ReadAmmo | model/Unit.cpp:37-43 | A count, then that many ints. A negative count fails |
| Units.DecodeEncode | model/Unit.cpp:10-87 | Reading back what `writeTo` wrote restores every serialised field and consumes exactly the written tokens, for an ammo list whose size fits an `int` |
| Units.DecodeEncodeHead | model/Unit.cpp:11-21 | Round trip of the first run of fields |
| Units.DecodeEncodeMotion | model/Unit.cpp:22-29 | Round trip of the motion run |
| Units.DecodeEncodeInventory | model/Unit.cpp:30-44 | Round trip of the inventory run |
| Units.DecodeEncodeAmmo | model/Unit.cpp:37-43 | Round trip of the ammo list |
| Units.DecodeEncodeOptDouble | model/Unit.cpp:17-21 | Round trip of an optional double |
| Units.DecodeEncodeOptAction | model/Unit.cpp:25-29 | Round trip of an optional action |
| Units.DecodeEncodeOptInt | model/Unit.cpp:31-35 | Round trip of an optional int |
| Units.DecodeEncodeInts | model/Unit.cpp:40-43 | Round trip of `n` ints |
| Units.Unit.CalcSpeedCircle | model/Unit.cpp:167-178 | Sets the radius from the constants. Without a weapon or aim, the maximal speeds are the constants; aiming scales them by `1 - (1 - m)·aim`. The circle's radius is their mean, and its centre lies half their difference ahead along the direction. No serialised field changes |
| Units.SpeedCircleBounds | model/Unit.cpp:171-176 | With aim in [0, 1], each speed lies between the weapon's modifier times its constant and the constant, so the circle's radius is positive |
| Units.AimFactorBounds | model/Unit.cpp:172-173 | The aim factor lies between the modifier and 1 |
| Units.Clamp | model/Unit.cpp:194 | `std::clamp` stays within its bounds and keeps a value already inside them |
| Units.CosineLawBounds | model/Unit.cpp:199 | The law-of-cosines radicand lies between `(|r| - |d|)²` and `(|r| + |d|)²`, so it is non-negative |
| Units.Chord | model/Unit.cpp:199 | The chord length is non-negative and lies between `||r| - |d||` and `|r| + |d|` |
| Units.Unit.SpeedAlongAsWritten | model/Unit.cpp:194-199 | The speed `getVelocity` computes as written lies between the nearest and farthest distance from the unit to its speed circle |
| Units.Unit.GetVelocity | model/Unit.cpp:193-201 | The velocity is the direction scaled by the corrected speed. For a unit whose circle is set and a unit direction, that speed is non-negative and the velocity ends on the edge of the speed circle |
| Units.ReachSolves | model/Unit.cpp:194-199 | With `cos² A + sin² A = 1` and `d² <= R²`, the reach is non-negative and satisfies the law of cosines `len² - 2 len d cos A + d² = R²` for the point where the ray leaves the circle |
| Units.ReachStraight | model/Unit.cpp:194-199 | Straight ahead a ray reaches `R + d`, straight back `R - d` |
| Units.LandingDistance | model/Unit.cpp:193-201 | The squared distance from `p + len b` to `p + d a` is `len²|b|² - 2 len d (a·b) + d²|a|²` |
| Units.SpeedAlongOnCircle | model/Unit.cpp:193-201 | For a unit whose circle is set and a unit direction, the corrected speed is non-negative and moving that far along the direction lands on the edge of the speed circle |
| Units.SpeedAlongEnds | model/Unit.cpp:193-201 | The corrected speed straight ahead is `max_forward_speed` and straight back is `max_backward_speed` |
| Units.ChordStraight | model/Unit.cpp:197-199 | At angle `π` the law-of-cosines chord is the sum of the two sides |
| Units.SpeedAlongBackwardAsWritten | model/Unit.cpp:193-201 | As written, with `asin(0) = 0` and `cos(π) = -1`, the speed straight back is `max_forward_speed`. Whenever the forward speed is the larger, it differs from the corrected backward speed |
| Units.CalcSetsCircle | model/Unit.cpp:167-178 | `calcSpeedCircle` with valid constants, an aim in [0, 1] and a unit facing direction gives non-negative speeds, their mean as radius and the centre `d` ahead |
| Units.Unit.HitTime | model/Unit.cpp:203-226 | A reported time needs a moving unit (`|v|² >= 1e-8`) and lies within the coming tick. At that time the unit is at distance `obstacle radius + unit radius`, and at every earlier time it is farther away. Units.HitTimeReported states the converse |
| Units.SmallerRootContact | model/Unit.cpp:219 | The smaller root is the first contact: touching then, farther apart before |
| Units.NoContactBefore | model/Unit.cpp:219 | Before the smaller root the quadratic is positive |
| Units.HitTimeReported | model/Unit.cpp:203-226 | A moving unit (`|v|² >= 1e-8`) now strictly outside the obstacle's enlarged circle, that reaches it within the coming tick, gets a time reported |
| Units.ContactReached | model/Unit.cpp:210-225 | When the motion starts outside the circle and touches it within the window, the discriminant is non-negative and the smaller root lies in the window |
| Units.ContactRoot | model/Unit.cpp:210-213 | A time of contact is a root of `a t² + b t + c` with the coefficients `hasHit` computes |
| Projectiles.Projectile.WriteTo | model/Projectile.cpp:20-28 | Appends the seven serialised fields in order |
| Projectiles.Projectile.ReadFrom | model/Projectile.cpp:8-17 | Reads the seven fields. The result is present exactly when they read, and the projectile is not destroyed |
| Projectiles.Projectile.Encode | model/Projectile.cpp:20-28 | Specification of `writeTo`. Projectiles.Projectile.WriteTo appends it and Projectiles.DecodeEncode reads it back |
| Projectiles.Projectile.Decode | model/Projectile.cpp:8-17 | Specification of `readFrom`. Projectiles.Projectile.ReadFrom follows it and Projectiles.DecodeEncode inverts Projectiles.Projectile.Encode with it |
| Projectiles.DecodeEncode | model/Projectile.cpp:8-28 | Reading back what `writeTo` wrote restores the projectile with `destroyed` false |
| Projectiles.Projectile.Path | model/Projectile.cpp:59 | The projectile's ray starts at its position with a unit direction |
| Projectiles.Projectile.IntersectUnit | model/Projectile.cpp:58-71 | True exactly when the ray meets the unit's circle and the distance to the circle's edge is at most `speed × lifeTime` |
| Projectiles.DivideAtMost | model/Projectile.cpp:66 | `dist / speed > lifeTime` exactly when `dist > speed × lifeTime`, for a positive speed |
| Projectiles.IntersectCircleAtPosition | model/Projectile.cpp:73-76 | A circle that already contains the projectile is met by its path |
| Projectiles.Projectile.Relative | model/Projectile.cpp:79-83 | The quadratic's leading coefficient is non-negative |
| Vectors.Quadratic | model/Projectile.cpp:81-83 | The coefficients of `|c0 + t v|² - radius²`; the leading one is non-negative |
| Projectiles.LargerRootContact | model/Projectile.cpp:90 | At the larger root the projectile touches the unit's circle |
| Projectiles.TouchesIsRoot | model/Projectile.cpp:79-84 | The projectile touches the unit's circle at time `t` exactly when `t` is a root of `a t² + b t + c` |
| Projectiles.LastContactWindow | model/Projectile.cpp:84-96 | With relative motion, some last moment of contact lies within the tick and the lifetime exactly when `d >= 0` and the larger root does |
| Projectiles.Projectile.IntersectCircle | model/Projectile.cpp:73-76 | Specification: the ray from the position along the velocity meets the circle. Projectiles.IntersectCircleAtPosition proves that a projectile inside the circle meets it |
| Projectiles.Projectile.HasHitAsWritten | model/Projectile.cpp:78-97 | True exactly when there is no relative motion, or when the last moment of contact with the unit's circle falls within the tick and the lifetime. A projectile still inside the circle after the tick is no hit |
| Projectiles.Projectile.HasHit | model/Projectile.cpp:78-97 | True exactly when there is relative motion and the last moment of contact with the unit's circle falls within the tick and the lifetime |
| Projectiles.HasHitDependsOn | model/Projectile.cpp:78-97 | `hasHit` sees the unit only through its position, velocity and radius |
| Projectiles.AtRestAsWritten | model/Projectile.cpp:84-90 | Without relative motion the discriminant is zero and the as-written test reports a hit at any distance |
| Projectiles.CoMovingHit | model/Projectile.cpp:78-97 | A projectile moving with a unit it is not touching never touches it, yet the as-written test reports a hit and the guarded test does not |
| Projectiles.StandingUnit | model/Projectile.cpp:78-83 | A unit of radius 1 resting at the origin |
| Projectiles.RestingProjectile | model/Projectile.cpp:78-83 | A projectile resting 100 away from it |
| Projectiles.RestingIsCoMoving | model/Projectile.cpp:78-97 | That pair moves together and is apart, so `CoMovingHit` applies to it |
| Simulation.Advance | source/Simulator.cpp:36-37 | A surviving bullet moves by `velocity × dt` and is `dt` older; id, weapon, shooter, velocity and `destroyed` are unchanged |
| Simulation.BulletPass | source/Simulator.cpp:22-39 | The pass leaves one bullet per slot and keeps at most as many survivors. Every survivor has lifetime left, and every bullet still names a weapon |
| Simulation.BulletPassLast | source/Simulator.cpp:22-39 | The pass over one more bullet extends the shorter pass by that bullet's outcome: damage if it hits, kept if it survives |
| Simulation.PassOutcomes | source/Simulator.cpp:22-39 | Each slot ends destroyed if its bullet hit or expired, and advanced otherwise |
| Simulation.PassRest | source/Simulator.cpp:30-38 | `rest_bullets` are exactly the bullets that neither hit nor expired, advanced, in order |
| Simulation.PassDamage | source/Simulator.cpp:24-25 | With no healing weapon, the damage is the sum over the bullets that hit of their damage rounded down, and it is non-negative |
| Simulation.TruncAfterInt | source/Simulator.cpp:25 | `(int)(n + x)` is `n + floor(x)` for a non-negative `int` `n` and double `x` |
| Simulation.DestroyedDealNothing | source/Simulator.cpp:24 | Destroyed bullets deal no damage and stay destroyed |
| Simulation.KeepBetter | source/Simulator.cpp:45-48 | A strictly smaller total replaces the best, which then records that total; otherwise the best stays |
| Simulation.KeepBetterAsWritten | source/Simulator.cpp:45-48 | As written, the update keeps the best or records this tick's damage alone |
| Simulation.SweepIsLeast | source/Simulator.cpp:15-49 | The recorded damage is at most the starting best and at most every remaining candidate's total |
| Simulation.SweepPicks | source/Simulator.cpp:15-49 | The result is the starting best or the velocity and total of a candidate tried |
| Simulation.OutlookIsLeast | source/Simulator.cpp:6-52 | `Simulate` returns the least total over all 360 candidates with the velocity of a candidate achieving it. It returns `((0,0), 1e9)` only when no total is below `1e9` |
| Simulation.OutlookNonNegative | source/Simulator.cpp:6-52 | With no healing weapon the reported damage is non-negative |
| Simulation.TotalNonNegative | source/Simulator.cpp:41-45 | A candidate's total, this tick plus the rest, is non-negative |
| Simulation.Outlook | source/Simulator.cpp:6-52 | Specification of `Simulate` with the bullets copied per candidate and the total recorded: `((0,0), 0)` with no tick left, otherwise the sweep over 360 candidates. Simulation.OutlookIsLeast and Simulation.OutlookNonNegative are proved about it |
| Simulation.Sweep | source/Simulator.cpp:15-49 | Specification of the candidate loop from step `ang` on, keeping the better of the best so far and each candidate. Simulation.SweepIsLeast and Simulation.SweepPicks are proved about it |
| Simulation.Total | source/Simulator.cpp:17-45 | Specification of one candidate's total: this tick's damage plus the outlook of the moved unit over the surviving bullets. Simulation.TotalNonNegative is proved about it |
| Simulation.Turned | source/Simulator.cpp:11-16 | Specification of `dir` after `steps` rotations: each step turns the same vector again, by `0, 1, ..., steps-1` degrees |
| Simulation.CandidateVelocity | source/Simulator.cpp:16-17 | Specification: `unit.getVelocity(dir)` after step `ang`'s rotation |
| Simulation.Moved | source/Simulator.cpp:41-42 | Specification: the unit moved one tick along the candidate velocity, all else kept |
| Simulation.OutlookAsWritten | source/Simulator.cpp:6-52 | Specification of `Simulate` as written. Simulation.SharedBulletAsWritten is proved about it |
| Simulation.SweepAsWritten | source/Simulator.cpp:15-49 | The candidate loop as written: each candidate sees the bullets as the previous pass left them, and this tick's damage is recorded. Simulation.SweepAsWrittenStaysZero is proved about it |
| Simulation.SharedBulletHits | source/Simulator.cpp:20-28 | With its own copy of a bullet that always hits, every candidate takes that bullet's damage |
| Simulation.SharedBulletDodged | source/Simulator.cpp:20 | Give each candidate its own copy of a bullet that hits every candidate: the damage `Simulate` reports is at least 1. As written, it reports 0 |
| Simulation.SharedBulletAsWritten | source/Simulator.cpp:20 | As written, a bullet that hits every candidate yields a reported damage of 0 |
| Simulation.SweepAsWrittenStaysZero | source/Simulator.cpp:20-48 | Once the bullets are all destroyed and 0 is recorded, the as-written sweep keeps its best |
| Simulation.RecordedDamageMisleads | source/Simulator.cpp:45-47 | Two candidates totalling `0+5` and `3+0`: as written the first wins with 0 recorded, intended the second wins with 3 |
| Simulation.Simulator.constructor | source/Simulator.cpp:4 | The simulator holds the given environment |
| Simulation.Simulator.Simulate | source/Simulator.cpp:6-52 | Returns `Outlook` of the unit and the bullets, and leaves the caller's array unchanged |
| Simulation.Simulator.Candidate | source/Simulator.cpp:15-48 | One loop step: turns the direction once more and advances the sweep by one candidate |
| Simulation.Simulator.TryCandidate | source/Simulator.cpp:18-43 | A candidate's total is this tick's pass damage plus the least damage of the next tick, on a copy of the bullets |
| Simulation.Simulator.Pass | source/Simulator.cpp:22-39 | The in-place pass leaves the array as `BulletPass` says, and returns its damage and survivors |
| Simulation.Simulator.Visit | source/Simulator.cpp:23-38 | One bullet: its outcome, with the damage and survivors extended as `BulletPass` says |
| Simulation.Simulator.Store | source/Simulator.cpp:26-37 | Writes the outcome into slot `i` and changes no other slot |
| Strategy.Direction | source/MyStrategy.cpp:114 | `norm` of a non-zero vector is the unit vector along it |
| Strategy.Healing | source/MyStrategy.cpp:137-147 | An order exactly when a whole potion's worth of shield is missing and a potion is at hand. It drinks the potion, faces the map centre and moves forward at full speed |
| Strategy.LootScan | source/MyStrategy.cpp:154-194 | The chosen entry exists, has an item the unit wants, and its squared distance is the recorded one. Nothing chosen leaves `1e9` |
| Strategy.Wanted | source/MyStrategy.cpp:166-193 | Specification of which items the unit wants: potions below half the maximum; ammo below 90% and weapons by the Magic wand / Bow rules, both only above 70% health and never for the Magic wand. Strategy.NeverMagicWand is proved about it |
| Strategy.LootQualifies | source/MyStrategy.cpp:156-193 | Specification: the entry has a wanted item no farther than `1e9`. Strategy.LootScanNearest is stated with it |
| Strategy.LootScanNearest | source/MyStrategy.cpp:156-194 | Every wanted entry nearer than `1e9` is at least as far as the chosen one, and one is chosen whenever such an entry exists |
| Strategy.LootScanLaterFarther | source/MyStrategy.cpp:161-169 | Among equally near entries the later one wins |
| Strategy.NeverMagicWand | source/MyStrategy.cpp:172-187 | The Magic wand and its ammo are never chosen |
| Strategy.LootOrder | source/MyStrategy.cpp:149-216 | No loot gives no order. An order goes to the chosen loot inside the zone: it walks toward the loot at full speed while one radius or more away, and otherwise stops and picks it up. No order means nothing qualified or the choice lies outside the zone |
| Strategy.Enemies | source/MyStrategy.cpp:20-24 | Exactly the units of other players |
| Strategy.Hostile | source/MyStrategy.cpp:46-53 | Exactly the projectiles of other players |
| Strategy.Threats | source/MyStrategy.cpp:46-53 | `threats` is never cleared: after `k` own units it holds `k` copies' worth of hostile projectiles and nothing else |
| Strategy.ThreatsStep | source/MyStrategy.cpp:46-53 | Definitional step of Strategy.Threats, used by the loop proof of `getOrder`: one more own unit appends the hostile projectiles once more |
| Strategy.EnemyScan | source/MyStrategy.cpp:36-44 | The chosen enemy exists and its squared distance is the recorded one. Nothing chosen leaves `1e9` |
| Strategy.EnemyScanNearest | source/MyStrategy.cpp:36-44 | The chosen enemy is no farther than any enemy nearer than `1e9`, and every earlier one is strictly farther |
| Strategy.Bullet | source/MyStrategy.cpp:62 | The imagined bullet has id -1, the unit's own weapon, the unit and player as shooter, and is not destroyed. It starts one unit radius ahead along the facing direction, moves along it at the weapon's projectile speed, and has the weapon's projectile lifetime. It moves whenever the unit faces somewhere |
| Strategy.ScaledNonZero | source/MyStrategy.cpp:62 | A positive multiple of a non-zero direction is non-zero |
| Strategy.ObstacleScan | source/MyStrategy.cpp:64-75 | The chosen obstacle blocks the bullet, and its edge distance is the recorded one and below `1e9`. Every scanned blocking obstacle nearer than `1e9` is at least as far as the choice, and some obstacle is chosen whenever one exists |
| Strategy.Shooting | source/MyStrategy.cpp:59-79 | Fires exactly when the aim is complete, the bullet reaches the enemy within its lifetime, and the enemy is no farther than every blocking obstacle the scan can record |
| Strategy.DodgeIsLeast | source/MyStrategy.cpp:127-135 | Under threat the dodge velocity is the velocity of a candidate with the least damage over the coming tick, or `(0,0)` when no candidate's total comes below `1e9` |
| Strategy.DodgeVelocity | source/MyStrategy.cpp:127-135 | Specification of `dodging`: the current velocity without threats, else the velocity `Simulate` returns for one tick. Strategy.DodgeIsLeast is proved about it |
| Strategy.Decide | source/MyStrategy.cpp:55-90 | Specification of one unit's order: an aimed order at the nearest enemy when the attack condition holds, otherwise the peaceful order |
| Strategy.Attacks | source/MyStrategy.cpp:56-58 | Specification of the attack condition: an enemy, ammo for the weapon, more than half health, the enemy within half the view distance |
| Strategy.Peaceful | source/MyStrategy.cpp:92-121 | Specification of the order without an attack: healing (steered as looting would), looting, or walking toward the zone, the enemy or the dodge velocity |
| Strategy.CalcKeepsReady | source/MyStrategy.cpp:30 | Setting the speed circle keeps the unit's ids and readiness and gives a positive speed radius |
| Strategy.Prepared | source/MyStrategy.cpp:28-30 | A unit keeps its ids and serialised fields |
| Strategy.PreparedUnits | source/MyStrategy.cpp:26-30 | The loop keeps the number of units |
| Strategy.PreparedUnitsAt | source/MyStrategy.cpp:26-30 | Own units get their speed circle set and every other unit is untouched |
| Strategy.PreparedUnitsStep | source/MyStrategy.cpp:26-30 | Preparing one more unit appends it, prepared |
| Strategy.PlanIsReady | source/MyStrategy.cpp:26-30 | The units that decide orders are ready to act |
| Strategy.Decisions | source/MyStrategy.cpp:88-121 | One order per picked id |
| Strategy.Plan | source/MyStrategy.cpp:26-29 | Specification: the first own unit with each id decides it, with the number of own units seen so far. Strategy.PlanKeys, Strategy.PlanFirst and Strategy.PlanIsReady are proved about it |
| Strategy.Decision | source/MyStrategy.cpp:30-121 | Specification: a picked unit decides after its speed circle is set, seeing the threats appended so far |
| Strategy.Orders | source/MyStrategy.cpp:26-122 | Specification of the order map of `getOrder`. Strategy.OrdersKeys, Strategy.OrdersFirst and Strategy.OrdersStep are proved about it |
| Strategy.DecisionsUpdate | source/MyStrategy.cpp:88 | Inserting an order for a new id changes no other order |
| Strategy.OrdersStep | source/MyStrategy.cpp:26-122 | One more unit adds its order when it is an own unit whose id has none, and otherwise changes nothing |
| Strategy.PlanKeys | source/MyStrategy.cpp:26-122 | An order is decided for an id exactly when some own unit has it |
| Strategy.OrdersKeys | source/MyStrategy.cpp:26-122 | The orders are keyed by exactly the own units' ids |
| Strategy.PlanFirst | source/MyStrategy.cpp:88 | `insert` does not overwrite: the first own unit with an id decides its order |
| Strategy.OrdersFirst | source/MyStrategy.cpp:26-122 | The first own unit with an id decides that id's order, after its speed circle is set. It sees the threats appended once per own unit so far |
| Strategy.MyStrategy.constructor | source/MyStrategy.cpp:10-12 | The strategy holds the constants and a simulator over them |
| Strategy.MyStrategy.ConsiderLoot | source/MyStrategy.cpp:157-193 | One entry of the loot loop advances the search by one entry |
| Strategy.MyStrategy.Looting | source/MyStrategy.cpp:149-216 | The loop returns `LootOrder` |
| Strategy.MyStrategy.NearestEnemy | source/MyStrategy.cpp:36-44 | The loop returns the enemy and distance `EnemyScan` chooses |
| Strategy.MyStrategy.Shoot | source/MyStrategy.cpp:59-79 | The obstacle loop returns `Shooting` |
| Strategy.MyStrategy.Dodging | source/MyStrategy.cpp:127-135 | The current velocity without threats; otherwise the velocity of one tick of `Simulate` |
| Strategy.MyStrategy.Act | source/MyStrategy.cpp:55-90 | The order `Decide` gives: attack the nearest enemy when armed, healthy and close, else act peacefully |
| Strategy.MyStrategy.Peace | source/MyStrategy.cpp:92-121 | Heal (steering as looting would), loot, or walk as `Peaceful` says |
| Strategy.MyStrategy.AddThreats | source/MyStrategy.cpp:46-53 | Appends the hostile projectiles to the threats |
| Strategy.MyStrategy.CollectEnemies | source/MyStrategy.cpp:20-24 | Returns `Enemies` of the units |
| Strategy.MyStrategy.Order | source/MyStrategy.cpp:30-121 | For an own unit: sets its speed circle, appends the threats once more, and returns its `Decision` |
| Strategy.MyStrategy.HandleUnit | source/MyStrategy.cpp:28-121 | One loop iteration: the unit prepared, the threats and the orders extended by it |
| Strategy.MyStrategy.Store | source/MyStrategy.cpp:30 | Writes the prepared unit back into its slot, after the units already done |
| Strategy.MyStrategy.Step | source/MyStrategy.cpp:26-122 | One loop iteration keeps the loop invariant: the units done are prepared in place, and threats and orders are theirs |
| Strategy.MyStrategy.GetOrder | source/MyStrategy.cpp:14-125 | Leaves every own unit with its speed circle set and the others untouched, and returns `Orders`: one order per own id, decided by the first own unit with it |

## Left out

- Floating point: doubles are reals. NaN, infinities and rounding are not
  modelled, and `sqrt`, `cos`, `sin` and `asin` are uninterpreted function
  parameters. `IsSqrt` and `IsCosine` state what the proofs need of them.
- Vectors.Vec2.Normalized: requires a non-zero vector, because the C++
  division by a zero length yields NaN, which reals cannot represent.
  Vectors.Vec2Var.Norm, Rays.MakeRay and Projectiles.Projectile.Path carry
  the same precondition for the same reason.
- Projectiles.Projectile.IntersectUnit: requires a moving projectile (its ray
  normalises the velocity) and a valid weapon index, for the same reasons.
- Strategy.Direction: returns the zero vector for a zero argument, where the
  C++ `norm` yields NaN components. This happens when loot lies exactly at
  the unit's position or an enemy stands on it.
- `toString`, `showSpeedCircle`, the debug drawing in `getOrder`, the
  `std::cerr` output in `dodging`, `debugUpdate` and `finish`: output only.
  py_comparer.py is a development script.
- `stream/Stream.hpp` and the `Action`, `Constants`, `WeaponProperties`,
  `Obstacle`, `Loot`, `Item` and `Zone` declarations are not part of this
  model. The streams become token sequences, and the records keep only the
  fields the core reads. `Action` is an abstract type serialised as one
  token.
- `MyStrategy::getConstants` (a global accessor): the constants are passed
  explicitly.
- The two-argument `Projectile::hasHit(unit, velocity)` that the simulator
  calls is not defined in the source. Its result is the parameter `Env.hit`.
  `unit.getVelocity(dir)` in the simulator is the parameter `Env.velocity`,
  tied to `Units.Unit.GetVelocity`, the corrected speed of the fourth
  Findings row, by `Env.Steers`.
- Simulation.Simulator.Simulate: requires `ticks >= 0`, because the source
  recurses without end on a negative count.
- Simulation.Simulator.Simulate: gives every candidate its own copy of the
  bullets and records the total damage (see Findings). So, unlike the
  source, it does not change the caller's bullets. Later own units in
  `getOrder` therefore see the threats unchanged by earlier dodging.
- Strategy.MyStrategy.GetOrder: requires every own unit to be ready:
  - a weapon index that exists;
  - aim in [0, 1];
  - a non-zero facing direction;
  - loot items whose weapon indices exist.

  The game guarantees these. The source indexes without checks, and the
  model cannot represent an out-of-range read.
- Strategy.MyStrategy.HandleUnit: works on a copy of the unit, which
  Strategy.MyStrategy.Store writes back into the array. The source updates
  it through a reference.
- Integer overflow: `int` arithmetic is unbounded, except `(int)ammo.size()`
  (Base.WrapToInt32) and the truncating conversion of the damage sum
  (Base.TruncToInt). Units.DecodeEncode needs an ammo list whose size fits
  an `int`.
- Vectors.Vec2Var.Rotate: returns the variable itself, as model/Vec2.cpp
  does. The header declares `rotate` as `void`.
- Units.Unit.HitTime: the radius and tick rate come from the passed
  constants rather than the global ones.
- Strategy.MyStrategy.Dodging: copies the threats into a fresh array before
  simulating, so the threats list stays as it was.
- Strategy.LootOrder, Strategy.MyStrategy.Looting: the walking order is
  built as `UnitOrder(dir.mul(speed), dir, nullopt)`. `mul` scales `dir` in
  place, and C++ leaves the order of argument evaluation unspecified. The
  model takes the order in which `dir` is read before it is scaled: the
  target direction is the unit vector toward the loot. With the other order
  it would be that vector times `maxUnitForwardSpeed`, which points the same
  way.
- Vectors.Vec2.Over, Vectors.Vec2Var.Div: require a non-zero scalar, because
  the C++ division by zero yields infinities or NaN, which reals cannot
  represent.
- Strategy.MyStrategy.GetOrder: also requires every hostile projectile to
  name a weapon the constants list (`Armed`), because `Simulate` indexes
  `constants.weapons` by it without a check.

## Findings

| source | as written | input that shows it | evidently intended | confidence | as-written member | corrected member |
|---|---|---|---|---|---|---|
| model/Projectile.cpp:90 | `t = (-b + sqrt(d)) / 2.0 / a` has no guard for `a == 0`. With no relative motion, `a`, `b` and `d` are all 0, `t` is `0/0` (NaN), every comparison fails, and `hasHit` returns true | A unit of radius 1 standing at the origin and a resting projectile at (100, 0) | No hit when the projectile moves with the unit | high; not executed | Projectiles.CoMovingHit | Projectiles.Projectile.HasHit |
| source/Simulator.cpp:20 | `sim_bullets` is a reference to `bullets`. The first candidate's pass marks a hitting bullet destroyed, and every later candidate sees it destroyed | One bullet that hits every candidate, simulated for one tick: the reported damage is 0 | Each candidate simulates its own copy of the bullets, so the reported damage is the bullet's | high; not executed | Simulation.SharedBulletAsWritten | Simulation.OutlookIsLeast |
| source/Simulator.cpp:46 | `min_damage = damage` records this tick's damage, while the comparison on line 45 uses `damage + res.second` | Candidates with totals 0 now + 5 later and 3 now + 0 later: the first wins and 0 is recorded | Record `damage + res.second`, so the least total wins | high; not executed | Simulation.RecordedDamageMisleads | Simulation.SweepIsLeast |
| model/Unit.cpp:194-197 | The angle between the facing direction and `dir` is taken as `π - asin(sin_a) - asin(sin_b)` from the cross product alone, and `asin` only returns angles in [-π/2, π/2]. A direction behind the unit gets the angle of its mirror image in front | A unit facing (1, 0) with forward speed 10 and backward speed 6, and `dir = (-1, 0)`: `sin_a = 0`, so `angle = π` and the speed is 10, the forward speed | Straight back the unit moves at `max_backward_speed` (6), and every direction reaches the edge of the speed circle | medium; not executed | Units.SpeedAlongBackwardAsWritten | Units.SpeedAlongOnCircle |
