/** Projectile dodging by exhaustive search (source/Simulator.cpp). For each of
    360 candidate directions, `Simulate` runs one tick of every bullet against
    the unit moving that way, then recurses on the surviving bullets with the
    unit moved; it returns the candidate velocity with the least damage over
    the remaining ticks. */
module Simulation {
  import opened Base
  import opened Vectors
  import opened Rules
  import opened Units
  import opened Projectiles

  /** `int min_damage = 1e9`: the damage recorded before any candidate. */
  const NoCandidate: int := 1_000_000_000

  /** The number of candidate directions tried per tick. */
  const Directions: nat := 360

  /** What a simulation depends on besides its arguments: the constants, the
      library functions it calls, the hit test and the unit's velocity along
      a direction. The simulation calls a two-argument
      `hasHit(unit, velocity)` that the projectile does not define, so the
      hit test is the parameter `hit`. The velocity is `getVelocity`, with the
      speed along a direction behind the unit corrected, once `Steers`
      holds; the reasoning about the search does not depend on which
      velocity that is. */
  datatype Env = Env(
    c: Constants,
    sqrt: real -> real,
    cos: real -> real,
    sin: real -> real,
    hit: (Projectile, Unit, Vec2) -> bool,
    velocity: (Unit, Vec2) -> Vec2)
  {
    ghost predicate Valid() {
      c.Valid() && IsSqrt(sqrt) && IsCosine(cos)
    }

    /** `velocity(unit, dir)` is `unit.getVelocity(dir)`. */
    ghost predicate Steers()
      requires Valid()
    {
      forall unit: Unit, dir: Vec2 :: velocity(unit, dir) == unit.GetVelocity(dir, sqrt)
    }
  }

  /** Every bullet names a weapon of the constants, so its damage can be
      looked up. */
  predicate Armed(c: Constants, bs: seq<Projectile>) {
    forall b :: b in bs ==> c.IsWeapon(b.weaponTypeIndex)
  }

  /** The damage a bullet deals. */
  function DamageOf(c: Constants, b: Projectile): real
    requires c.IsWeapon(b.weaponTypeIndex)
  {
    c.weapons[b.weaponTypeIndex].projectileDamage
  }

  /** The bullet is still live and meets the unit moving at `velocity`. */
  predicate Hits(e: Env, b: Projectile, unit: Unit, velocity: Vec2) {
    !b.destroyed && e.hit(b, unit, velocity)
  }

  /** The bullet neither hits nor runs out of lifetime this tick. */
  predicate Survives(e: Env, b: Projectile, unit: Unit, velocity: Vec2)
    requires e.Valid()
  {
    !Hits(e, b, unit, velocity) && e.c.TickTime() < b.lifeTime
  }

  /** The bullet one tick later: moved by its velocity and a tick older. */
  function Advance(e: Env, b: Projectile): (r: Projectile)
    requires e.Valid()
    ensures r.position == b.position.Plus(b.velocity.Times(e.c.TickTime()))
    ensures r.lifeTime == b.lifeTime - e.c.TickTime()
    ensures r.(position := b.position, lifeTime := b.lifeTime) == b
  {
    var dt := e.c.TickTime();
    b.(position := b.position.Plus(b.velocity.Times(dt)), lifeTime := b.lifeTime - dt)
  }

  /** What the pass leaves in the bullet's slot: a bullet that hits or expires
      is marked destroyed where it stands, any other is advanced. */
  function Outcome(e: Env, b: Projectile, unit: Unit, velocity: Vec2): Projectile
    requires e.Valid()
  {
    if Hits(e, b, unit, velocity) || b.lifeTime <= e.c.TickTime() then b.(destroyed := true)
    else Advance(e, b)
  }

  /** The result of one pass over the bullets: the integer damage taken, the
      surviving bullets (`rest_bullets`), and the bullets as the pass leaves
      them in place. */
  datatype PassResult = PassResult(damage: int, rest: seq<Projectile>, after: seq<Projectile>)

  /** The pass over `bs` in order. Each hit adds its weapon's damage to the
      `int` total, which truncates the `double` sum. */
  function BulletPass(e: Env, bs: seq<Projectile>, unit: Unit, velocity: Vec2): (r: PassResult)
    requires e.Valid() && Armed(e.c, bs)
    ensures |r.after| == |bs| && |r.rest| <= |bs|
    ensures forall q :: q in r.rest ==> 0.0 < q.lifeTime
    ensures Armed(e.c, r.rest) && Armed(e.c, r.after)
    decreases |bs|
  {
    if bs == [] then PassResult(0, [], [])
    else
      var p := BulletPass(e, bs[..|bs| - 1], unit, velocity);
      var b := bs[|bs| - 1];
      assert b in bs;
      var o := Outcome(e, b, unit, velocity);
      PassResult(if Hits(e, b, unit, velocity) then TruncToInt(p.damage as real + DamageOf(e.c, b)) else p.damage,
           if Survives(e, b, unit, velocity) then p.rest + [o] else p.rest,
           p.after + [o])
  }

  /** The sum over the bullets that hit of their damage rounded down: the
      pass's total when no weapon has negative damage. */
  function HitDamage(e: Env, bs: seq<Projectile>, unit: Unit, velocity: Vec2): int
    requires Armed(e.c, bs)
  {
    if bs == [] then 0
    else
      assert bs[0] in bs;
      (if Hits(e, bs[0], unit, velocity) then DamageOf(e.c, bs[0]).Floor else 0)
      + HitDamage(e, bs[1..], unit, velocity)
  }

  /** Weapons never heal. */
  predicate HarmlessOrWorse(c: Constants) {
    forall w :: w in c.weapons ==> 0.0 <= w.projectileDamage
  }

  /** The direction after the first `steps` steps of the candidate loop.
      `dir.rotate(ang)` turns the same vector again at every step, so step
      `ang` looks `0 + 1 + ... + ang` degrees away from the unit's
      direction. */
  function Turned(e: Env, d0: Vec2, steps: nat): Vec2 {
    if steps == 0 then d0
    else Turned(e, d0, steps - 1).Rotated((steps - 1) as real, e.cos, e.sin)
  }

  /** The candidate velocity at step `ang`: `unit.getVelocity(dir)`. */
  function CandidateVelocity(e: Env, unit: Unit, ang: nat): Vec2
    requires e.Valid()
  {
    e.velocity(unit, Turned(e, unit.direction, ang + 1))
  }

  /** The copy of the unit handed to the next tick: moved one tick along
      `velocity`, everything else as it was. */
  function Moved(e: Env, unit: Unit, velocity: Vec2): Unit
    requires e.Valid()
  {
    unit.(position := unit.position.Plus(velocity.Times(e.c.TickTime())))
  }

  /** The pass over a prefix one bullet longer: the last bullet's outcome is
      appended to the pass over the shorter prefix. */
  lemma BulletPassLast(e: Env, bs: seq<Projectile>, unit: Unit, velocity: Vec2, i: nat)
    requires e.Valid() && Armed(e.c, bs) && i < |bs|
    ensures Armed(e.c, bs[..i]) && Armed(e.c, bs[..i + 1]) && e.c.IsWeapon(bs[i].weaponTypeIndex)
    ensures var p := BulletPass(e, bs[..i], unit, velocity);
            var b := bs[i];
            var o := Outcome(e, b, unit, velocity);
            BulletPass(e, bs[..i + 1], unit, velocity)
            == PassResult(if Hits(e, b, unit, velocity) then TruncToInt(p.damage as real + DamageOf(e.c, b)) else p.damage,
                          if Survives(e, b, unit, velocity) then p.rest + [o] else p.rest,
                          p.after + [o])
  {
    assert bs[..i + 1][..i] == bs[..i];
    assert bs[i] in bs;
  }

  /** `Simulate` with every candidate starting from the same bullets and
      recording its total damage: the best candidate velocity and the least
      total damage over `ticks` ticks; `((0, 0), 0)` when no tick remains. */
  function Outlook(e: Env, unit: Unit, bs: seq<Projectile>, ticks: nat): (Vec2, int)
    requires e.Valid() && Armed(e.c, bs)
    decreases ticks, 2, 0
  {
    if ticks == 0 then (Zero, 0)
    else Sweep(e, unit, bs, ticks, 0, (Zero, NoCandidate))
  }

  /** The candidates from `ang` on, given the best one so far. */
  function Sweep(e: Env, unit: Unit, bs: seq<Projectile>, ticks: nat, ang: nat, best: (Vec2, int)): (Vec2, int)
    requires e.Valid() && Armed(e.c, bs)
    requires 0 < ticks && ang <= Directions
    decreases ticks, 1, Directions - ang
  {
    if ang == Directions then best
    else
      var best' := KeepBetter(best, CandidateVelocity(e, unit, ang), Total(e, unit, bs, ticks, ang));
      Sweep(e, unit, bs, ticks, ang + 1, best')
  }

  /** The damage of candidate `ang`: this tick's damage plus the least
      damage over the remaining ticks. */
  function Total(e: Env, unit: Unit, bs: seq<Projectile>, ticks: nat, ang: nat): int
    requires e.Valid() && Armed(e.c, bs)
    requires 0 < ticks
    decreases ticks, 0, 0
  {
    var velocity := CandidateVelocity(e, unit, ang);
    var p := BulletPass(e, bs, unit, velocity);
    p.damage + Outlook(e, Moved(e, unit, velocity), p.rest, ticks - 1).1
  }

  /** The intended update of the best candidate: a strictly smaller total
      replaces it, and the total is what is recorded. */
  function KeepBetter(best: (Vec2, int), velocity: Vec2, total: int): (r: (Vec2, int))
    ensures r.1 == if total < best.1 then total else best.1
    ensures r == best || r == (velocity, total)
  {
    if total < best.1 then (velocity, total) else best
  }

  /** The update as written: it compares the total but records only this
      tick's damage. */
  function KeepBetterAsWritten(best: (Vec2, int), velocity: Vec2, damage: int, future: int): (r: (Vec2, int))
    ensures r == best || r == (velocity, damage)
  {
    if damage + future < best.1 then (velocity, damage) else best
  }

  /** `Simulate` as written: `sim_bullets` is a reference to `bullets`, so
      every candidate sees the bullets as the previous candidates' passes
      left them, and the update records only this tick's damage. */
  function OutlookAsWritten(e: Env, unit: Unit, bs: seq<Projectile>, ticks: nat): (Vec2, int)
    requires e.Valid() && Armed(e.c, bs)
    decreases ticks, 1, 0
  {
    if ticks == 0 then (Zero, 0)
    else SweepAsWritten(e, unit, bs, ticks, 0, (Zero, NoCandidate))
  }

  function SweepAsWritten(e: Env, unit: Unit, bs: seq<Projectile>, ticks: nat, ang: nat, best: (Vec2, int)): (Vec2, int)
    requires e.Valid() && Armed(e.c, bs)
    requires 0 < ticks && ang <= Directions
    decreases ticks, 0, Directions - ang
  {
    if ang == Directions then best
    else
      var velocity := CandidateVelocity(e, unit, ang);
      var p := BulletPass(e, bs, unit, velocity);
      var res := OutlookAsWritten(e, Moved(e, unit, velocity), p.rest, ticks - 1);
      SweepAsWritten(e, unit, p.after, ticks, ang + 1, KeepBetterAsWritten(best, velocity, p.damage, res.1))
  }

  /** The sweep ends with the least total among the remaining candidates,
      or with the best candidate it started from when none is smaller: no
      remaining candidate's total is below the result. */
  lemma {:induction false} SweepIsLeast(e: Env, unit: Unit, bs: seq<Projectile>, ticks: nat, ang: nat, best: (Vec2, int))
    requires e.Valid() && Armed(e.c, bs)
    requires 0 < ticks && ang <= Directions
    ensures var r := Sweep(e, unit, bs, ticks, ang, best);
            && r.1 <= best.1
            && (forall k :: ang <= k < Directions ==> r.1 <= Total(e, unit, bs, ticks, k))
    decreases Directions - ang
  {
    if ang < Directions {
      var best' := KeepBetter(best, CandidateVelocity(e, unit, ang), Total(e, unit, bs, ticks, ang));
      SweepIsLeast(e, unit, bs, ticks, ang + 1, best');
    }
  }

  /** The sweep's result is the best candidate it started from or one of
      the candidates it tried. */
  lemma {:induction false} SweepPicks(e: Env, unit: Unit, bs: seq<Projectile>, ticks: nat, ang: nat, best: (Vec2, int))
    requires e.Valid() && Armed(e.c, bs)
    requires 0 < ticks && ang <= Directions
    ensures var r := Sweep(e, unit, bs, ticks, ang, best);
            r == best || exists k :: ang <= k < Directions && r == (CandidateVelocity(e, unit, k), Total(e, unit, bs, ticks, k))
    decreases Directions - ang
  {
    if ang < Directions {
      var best' := KeepBetter(best, CandidateVelocity(e, unit, ang), Total(e, unit, bs, ticks, ang));
      SweepPicks(e, unit, bs, ticks, ang + 1, best');
    }
  }

  /** `Simulate` returns the least total damage over all 360 candidates and
      the velocity of a candidate that achieves it; only when every
      candidate's total reaches `1e9` does it return `((0, 0), 1e9)`. */
  lemma OutlookIsLeast(e: Env, unit: Unit, bs: seq<Projectile>, ticks: nat)
    requires e.Valid() && Armed(e.c, bs)
    requires 0 < ticks
    ensures var r := Outlook(e, unit, bs, ticks);
            && r.1 <= NoCandidate
            && (forall k :: 0 <= k < Directions ==> r.1 <= Total(e, unit, bs, ticks, k))
            && (r == (Zero, NoCandidate) || exists k :: 0 <= k < Directions && r == (CandidateVelocity(e, unit, k), Total(e, unit, bs, ticks, k)))
  {
    SweepIsLeast(e, unit, bs, ticks, 0, (Zero, NoCandidate));
    SweepPicks(e, unit, bs, ticks, 0, (Zero, NoCandidate));
  }

  /** With no weapon of negative damage, the least damage `Simulate`
      reports is never negative. */
  lemma {:induction false} OutlookNonNegative(e: Env, unit: Unit, bs: seq<Projectile>, ticks: nat)
    requires e.Valid() && Armed(e.c, bs) && HarmlessOrWorse(e.c)
    ensures 0 <= Outlook(e, unit, bs, ticks).1
    decreases ticks, 1
  {
    if 0 < ticks {
      OutlookIsLeast(e, unit, bs, ticks);
      var r := Outlook(e, unit, bs, ticks);
      if r != (Zero, NoCandidate) {
        var k :| 0 <= k < Directions && r == (CandidateVelocity(e, unit, k), Total(e, unit, bs, ticks, k));
        TotalNonNegative(e, unit, bs, ticks, k);
      }
    }
  }

  /** A candidate's total is never negative: this tick's damage is not, and
      neither is the outlook of the remaining ticks. */
  lemma {:induction false} TotalNonNegative(e: Env, unit: Unit, bs: seq<Projectile>, ticks: nat, k: nat)
    requires e.Valid() && Armed(e.c, bs) && HarmlessOrWorse(e.c)
    requires 0 < ticks
    ensures 0 <= Total(e, unit, bs, ticks, k)
    decreases ticks, 0
  {
    var velocity := CandidateVelocity(e, unit, k);
    PassDamage(e, bs, unit, velocity);
    OutlookNonNegative(e, Moved(e, unit, velocity), BulletPass(e, bs, unit, velocity).rest, ticks - 1);
  }

  /** Each slot of the pass holds its bullet's outcome: destroyed if it hit
      or expired, advanced otherwise; the pass never reorders bullets. */
  lemma {:induction false} PassOutcomes(e: Env, bs: seq<Projectile>, unit: Unit, velocity: Vec2)
    requires e.Valid() && Armed(e.c, bs)
    ensures forall i :: 0 <= i < |bs| ==> BulletPass(e, bs, unit, velocity).after[i] == Outcome(e, bs[i], unit, velocity)
    decreases |bs|
  {
    if bs != [] {
      PassOutcomes(e, bs[..|bs| - 1], unit, velocity);
    }
  }

  /** The survivors are exactly the bullets that neither hit nor expired,
      advanced, in their original order. */
  function Survivors(e: Env, bs: seq<Projectile>, unit: Unit, velocity: Vec2): seq<Projectile>
    requires e.Valid()
  {
    if bs == [] then []
    else (if Survives(e, bs[0], unit, velocity) then [Advance(e, bs[0])] else [])
         + Survivors(e, bs[1..], unit, velocity)
  }

  lemma {:induction false} SurvivorsAppend(e: Env, bs: seq<Projectile>, b: Projectile, unit: Unit, velocity: Vec2)
    requires e.Valid()
    ensures Survivors(e, bs + [b], unit, velocity)
            == Survivors(e, bs, unit, velocity) + (if Survives(e, b, unit, velocity) then [Advance(e, b)] else [])
    decreases |bs|
  {
    if bs == [] {
      assert [b][1..] == [];
    } else {
      assert (bs + [b])[1..] == bs[1..] + [b];
      SurvivorsAppend(e, bs[1..], b, unit, velocity);
    }
  }

  lemma {:induction false} PassRest(e: Env, bs: seq<Projectile>, unit: Unit, velocity: Vec2)
    requires e.Valid() && Armed(e.c, bs)
    ensures BulletPass(e, bs, unit, velocity).rest == Survivors(e, bs, unit, velocity)
    decreases |bs|
  {
    if bs != [] {
      var init := bs[..|bs| - 1];
      PassRest(e, init, unit, velocity);
      SurvivorsAppend(e, init, bs[|bs| - 1], unit, velocity);
      assert init + [bs[|bs| - 1]] == bs;
    }
  }

  lemma {:induction false} HitDamageAppend(e: Env, bs: seq<Projectile>, b: Projectile, unit: Unit, velocity: Vec2)
    requires Armed(e.c, bs) && e.c.IsWeapon(b.weaponTypeIndex)
    ensures Armed(e.c, bs + [b])
    ensures HitDamage(e, bs + [b], unit, velocity)
            == HitDamage(e, bs, unit, velocity) + (if Hits(e, b, unit, velocity) then DamageOf(e.c, b).Floor else 0)
    decreases |bs|
  {
    if bs == [] {
      assert [b][1..] == [];
    } else {
      assert (bs + [b])[1..] == bs[1..] + [b];
      HitDamageAppend(e, bs[1..], b, unit, velocity);
    }
  }

  /** `(int)(n + x)` for a non-negative int `n` and double `x`. */
  lemma TruncAfterInt(n: int, x: real)
    requires 0 <= n && 0.0 <= x
    ensures TruncToInt(n as real + x) == n + x.Floor
  {
    assert n as real + x.Floor as real <= n as real + x < n as real + x.Floor as real + 1.0;
  }

  /** With no weapon of negative damage, the pass's damage is the sum over
      the bullets that hit of their damage rounded down; in particular a
      bullet already destroyed adds nothing. */
  lemma {:induction false} PassDamage(e: Env, bs: seq<Projectile>, unit: Unit, velocity: Vec2)
    requires e.Valid() && Armed(e.c, bs) && HarmlessOrWorse(e.c)
    ensures BulletPass(e, bs, unit, velocity).damage == HitDamage(e, bs, unit, velocity)
    ensures 0 <= BulletPass(e, bs, unit, velocity).damage
    decreases |bs|
  {
    if bs != [] {
      var init, b := bs[..|bs| - 1], bs[|bs| - 1];
      assert b in bs;
      assert e.c.weapons[b.weaponTypeIndex] in e.c.weapons;
      PassDamage(e, init, unit, velocity);
      HitDamageAppend(e, init, b, unit, velocity);
      assert init + [b] == bs;
      if Hits(e, b, unit, velocity) {
        TruncAfterInt(BulletPass(e, init, unit, velocity).damage, DamageOf(e.c, b));
      }
    }
  }

  /** Bullets that are all destroyed deal no damage, whatever the hit test
      says, and stay destroyed. */
  lemma {:induction false} DestroyedDealNothing(e: Env, bs: seq<Projectile>, unit: Unit, velocity: Vec2)
    requires e.Valid() && Armed(e.c, bs)
    requires forall b :: b in bs ==> b.destroyed
    ensures BulletPass(e, bs, unit, velocity).damage == 0
    ensures forall b :: b in BulletPass(e, bs, unit, velocity).after ==> b.destroyed
    decreases |bs|
  {
    if bs != [] {
      var init := bs[..|bs| - 1];
      assert forall b :: b in init ==> b in bs;
      assert bs[|bs| - 1] in bs;
      DestroyedDealNothing(e, init, unit, velocity);
    }
  }

  /** A bullet that hits every candidate, simulated for one tick. Every
      candidate takes its damage, so `Simulate` with a copy per candidate
      reports it; as written, the first candidate destroys the shared bullet,
      the second then meets no live bullet, and `Simulate` reports no
      damage. */
  lemma SharedBulletDodged(e: Env, unit: Unit, b: Projectile)
    requires e.Valid() && e.c.IsWeapon(b.weaponTypeIndex)
    requires forall p, u, v :: e.hit(p, u, v)
    requires !b.destroyed && 1.0 <= DamageOf(e.c, b) <= 1000.0
    ensures 1 <= Outlook(e, unit, [b], 1).1
    ensures OutlookAsWritten(e, unit, [b], 1).1 == 0
  {
    forall k | 0 <= k < Directions
      ensures Total(e, unit, [b], 1, k) == TruncToInt(DamageOf(e.c, b))
    {
      SharedBulletHits(e, unit, b, k);
    }
    OutlookIsLeast(e, unit, [b], 1);
    var r := Outlook(e, unit, [b], 1);
    if r != (Zero, NoCandidate) {
      var k :| 0 <= k < Directions && r == (CandidateVelocity(e, unit, k), Total(e, unit, [b], 1, k));
      assert r.1 == TruncToInt(DamageOf(e.c, b));
    }
    SharedBulletAsWritten(e, unit, b);
  }

  /** With its own copy of the bullet, every candidate takes its damage. */
  lemma SharedBulletHits(e: Env, unit: Unit, b: Projectile, k: nat)
    requires e.Valid() && e.c.IsWeapon(b.weaponTypeIndex)
    requires forall p, u, v :: e.hit(p, u, v)
    requires !b.destroyed
    ensures Total(e, unit, [b], 1, k) == TruncToInt(DamageOf(e.c, b))
  {
    var velocity := CandidateVelocity(e, unit, k);
    assert [b][..0] == [];
    assert Hits(e, b, unit, velocity);
    assert BulletPass(e, [b], unit, velocity).damage == TruncToInt(0 as real + DamageOf(e.c, b));
  }

  lemma SharedBulletAsWritten(e: Env, unit: Unit, b: Projectile)
    requires e.Valid() && e.c.IsWeapon(b.weaponTypeIndex)
    requires forall p, u, v :: e.hit(p, u, v)
    requires !b.destroyed && 1.0 <= DamageOf(e.c, b) <= 1000.0
    ensures OutlookAsWritten(e, unit, [b], 1).1 == 0
  {
    var v0 := CandidateVelocity(e, unit, 0);
    var p0 := BulletPass(e, [b], unit, v0);
    assert [b][..0] == [];
    assert Hits(e, b, unit, v0);
    assert BulletPass(e, [b][..0], unit, v0) == PassResult(0, [], []);
    assert p0.damage == TruncToInt(0 as real + DamageOf(e.c, b));
    assert p0.rest == [];
    var best1 := KeepBetterAsWritten((Zero, NoCandidate), v0, p0.damage, 0);
    assert p0.after == [b.(destroyed := true)];
    var v1 := CandidateVelocity(e, unit, 1);
    DestroyedDealNothing(e, p0.after, unit, v1);
    var p1 := BulletPass(e, p0.after, unit, v1);
    assert forall q :: q in p1.rest ==> q in p1.after by {
      PassRest(e, p0.after, unit, v1);
    }
    var best2 := KeepBetterAsWritten(best1, v1, p1.damage, OutlookAsWritten(e, Moved(e, unit, v1), p1.rest, 0).1);
    assert best2.1 == 0;
    SweepAsWrittenStaysZero(e, unit, p1.after, 2, best2);
  }

  /** Once the as-written sweep of a single tick has recorded no damage and
      every bullet is destroyed, nothing changes the record. */
  lemma {:induction false} SweepAsWrittenStaysZero(e: Env, unit: Unit, bs: seq<Projectile>, ang: nat, best: (Vec2, int))
    requires e.Valid() && Armed(e.c, bs)
    requires ang <= Directions && best.1 == 0
    requires forall b :: b in bs ==> b.destroyed
    ensures SweepAsWritten(e, unit, bs, 1, ang, best) == best
    decreases Directions - ang
  {
    if ang < Directions {
      var velocity := CandidateVelocity(e, unit, ang);
      DestroyedDealNothing(e, bs, unit, velocity);
      var p := BulletPass(e, bs, unit, velocity);
      assert KeepBetterAsWritten(best, velocity, p.damage, OutlookAsWritten(e, Moved(e, unit, velocity), p.rest, 0).1) == best;
      SweepAsWrittenStaysZero(e, unit, p.after, ang + 1, best);
    }
  }

  /** Two candidates in turn: the first takes no damage now but 5 later, the
      second 3 now and none later. As written the first is kept, recorded as
      0, and the better second one cannot beat that record; the intended
      update keeps the second with its total 3. */
  lemma RecordedDamageMisleads(v1: Vec2, v2: Vec2)
    ensures KeepBetterAsWritten(KeepBetterAsWritten((Zero, NoCandidate), v1, 0, 5), v2, 3, 0) == (v1, 0)
    ensures KeepBetter(KeepBetter((Zero, NoCandidate), v1, 0 + 5), v2, 3 + 0) == (v2, 3)
  {
  }

  class Simulator {
    const env: Env

    constructor (env: Env)
      ensures this.env == env
    {
      this.env := env;
    }

    /** `Simulate` with each candidate working on its own copy of the
        bullets and recording its total damage. The caller's bullets and
        unit are left as they were. */
    method Simulate(unit: Unit, bullets: array<Projectile>, ticks: int) returns (r: (Vec2, int))
      requires env.Valid() && env.Steers() && Armed(env.c, bullets[..])
      requires 0 <= ticks
      ensures r == Outlook(env, unit, bullets[..], ticks)
      decreases ticks, 2
    {
      if ticks == 0 {
        return (Zero, 0);
      }
      ghost var bs := bullets[..];
      var dir := unit.direction;
      var minDamage := NoCandidate;
      var resDir := Zero;
      ghost var start := (resDir, minDamage);
      for ang := 0 to Directions
        invariant bullets[..] == bs
        invariant dir == Turned(env, unit.direction, ang)
        invariant Sweep(env, unit, bs, ticks, ang, (resDir, minDamage)) == Sweep(env, unit, bs, ticks, 0, start)
      {
        dir, resDir, minDamage := Candidate(unit, bullets, ticks, ang, dir, resDir, minDamage);
      }
      assert Sweep(env, unit, bs, ticks, Directions, (resDir, minDamage)) == (resDir, minDamage);
      r := (resDir, minDamage);
    }

    /** One step of the candidate loop: turn the direction by `ang` degrees,
        take the velocity along it, and keep it when its total damage beats
        the best so far. */
    method Candidate(unit: Unit, bullets: array<Projectile>, ticks: int, ang: nat, dir: Vec2, resDir: Vec2, minDamage: int)
      returns (dir': Vec2, resDir': Vec2, minDamage': int)
      requires env.Valid() && env.Steers() && Armed(env.c, bullets[..])
      requires 0 < ticks && ang < Directions
      requires dir == Turned(env, unit.direction, ang)
      ensures dir' == Turned(env, unit.direction, ang + 1)
      ensures Sweep(env, unit, bullets[..], ticks, ang + 1, (resDir', minDamage'))
              == Sweep(env, unit, bullets[..], ticks, ang, (resDir, minDamage))
      decreases ticks, 1
    {
      dir' := dir.Rotated(ang as real, env.cos, env.sin);
      var velocity := unit.GetVelocity(dir', env.sqrt);
      var total := TryCandidate(unit, bullets, ticks, velocity);
      assert velocity == CandidateVelocity(env, unit, ang);
      assert total == Total(env, unit, bullets[..], ticks, ang);
      resDir', minDamage' := resDir, minDamage;
      if total < minDamage {
        minDamage' := total;
        resDir' := velocity;
      }
    }

    /** The body of the candidate loop: a pass over a copy of the bullets,
        then the remaining ticks with the moved unit and the survivors. */
    method TryCandidate(unit: Unit, bullets: array<Projectile>, ticks: int, velocity: Vec2) returns (total: int)
      requires env.Valid() && env.Steers() && Armed(env.c, bullets[..])
      requires 0 < ticks
      ensures total == BulletPass(env, bullets[..], unit, velocity).damage
                       + Outlook(env, Moved(env, unit, velocity), BulletPass(env, bullets[..], unit, velocity).rest, ticks - 1).1
      decreases ticks, 0
    {
      ghost var bs := bullets[..];
      ghost var p := BulletPass(env, bs, unit, velocity);
      var deltaTime := 1.0 / env.c.ticksPerSecond;
      var simBullets := new Projectile[bullets.Length](i requires 0 <= i < bullets.Length reads bullets => bullets[i]);
      assert simBullets[..] == bs;
      var damage, restBullets := Pass(simBullets, unit, velocity);
      assert damage == p.damage && restBullets == p.rest;
      var simUnit := unit.(position := unit.position.Plus(velocity.Times(deltaTime)));
      assert simUnit == Moved(env, unit, velocity);
      var rest := new Projectile[|restBullets|](i requires 0 <= i < |restBullets| => restBullets[i]);
      assert rest[..] == restBullets;
      var res := Simulate(simUnit, rest, ticks - 1);
      total := damage + res.1;
    }

    /** One pass over the bullets in place: hits and expired bullets are
        marked destroyed, the others advanced and appended to the
        survivors. */
    method Pass(bullets: array<Projectile>, unit: Unit, velocity: Vec2) returns (damage: int, rest: seq<Projectile>)
      requires env.Valid() && Armed(env.c, bullets[..])
      modifies bullets
      ensures BulletPass(env, old(bullets[..]), unit, velocity) == PassResult(damage, rest, bullets[..])
    {
      ghost var bs := bullets[..];
      damage, rest := 0, [];
      for i := 0 to bullets.Length
        invariant bullets[i..] == bs[i..]
        invariant BulletPass(env, bs[..i], unit, velocity) == PassResult(damage, rest, bullets[..i])
      {
        var bullet := bullets[i];
        assert bullet == bs[i] by { assert bs[i..][0] == bs[i]; }
        bullet, damage, rest := Visit(bullet, unit, velocity, damage, rest, bs, i, bullets[..i]);
        Store(bullets, i, bullet);
      }
      assert bullets[..bullets.Length] == bullets[..];
      assert bs[..bullets.Length] == bs;
    }

    /** The loop body of the pass for one bullet: a live bullet that hits
        adds its damage and is destroyed, an expiring one is destroyed, any
        other is advanced and joins the survivors. */
    method Visit(bullet: Projectile, unit: Unit, velocity: Vec2, damage: int, rest: seq<Projectile>,
                 ghost bs: seq<Projectile>, ghost i: nat, ghost after: seq<Projectile>)
      returns (outcome: Projectile, damage': int, rest': seq<Projectile>)
      requires env.Valid() && Armed(env.c, bs) && i < |bs| && bullet == bs[i]
      requires BulletPass(env, bs[..i], unit, velocity) == PassResult(damage, rest, after)
      ensures outcome == Outcome(env, bullet, unit, velocity)
      ensures BulletPass(env, bs[..i + 1], unit, velocity) == PassResult(damage', rest', after + [outcome])
    {
      BulletPassLast(env, bs, unit, velocity, i);
      var deltaTime := 1.0 / env.c.ticksPerSecond;
      damage', rest' := damage, rest;
      if !bullet.destroyed && env.hit(bullet, unit, velocity) {
        damage' := TruncToInt(damage as real + env.c.weapons[bullet.weaponTypeIndex].projectileDamage);
        outcome := bullet.(destroyed := true);
      } else if bullet.lifeTime <= deltaTime {
        outcome := bullet.(destroyed := true);
      } else {
        outcome := bullet.(position := bullet.position.Plus(bullet.velocity.Times(deltaTime)),
                           lifeTime := bullet.lifeTime - deltaTime);
        rest' := rest + [outcome];
      }
    }

    /** Writes the pass's outcome into slot `i`; the slots before it keep
        their outcomes and the slots after it their bullets. */
    static method Store(bullets: array<Projectile>, i: nat, outcome: Projectile)
      requires i < bullets.Length
      modifies bullets
      ensures bullets[..i + 1] == old(bullets[..i]) + [outcome]
      ensures bullets[i + 1..] == old(bullets[i + 1..])
    {
      bullets[i] := outcome;
    }
  }
}
