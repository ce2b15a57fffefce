/**
 * Shooting: the shot budget of the `SingleShoot` and `FanShoot` components, the spread of
 * a fan of bullets, the player's gun with its power thresholds, and the support units
 * that follow the player while it has power.
 */
module Shooting {
  import opened Timers
  import opened Targets
  import opened Arith

  // ---------------------------------------------------------------------------
  // Shot budget
  // ---------------------------------------------------------------------------

  /** What a finished cooldown does with the budget `times`. */
  datatype ShotOutcome = Fire(remaining: int) | RemoveShooter

  /** A positive budget is spent one shot at a time, zero removes the shooter, a negative one is unlimited. */
  function Budget(times: int): (r: ShotOutcome)
    ensures r.Fire? ==> r.remaining == (if times > 0 then times - 1 else times)
    ensures r.Fire? <==> times != 0
  {
    if times > 0 then Fire(times - 1)
    else if times == 0 then RemoveShooter
    else Fire(times)
  }

  /** The shots fired over `finishes` finished cooldowns, counting none after the removal. */
  function ShotsFired(times: int, finishes: nat): nat
  {
    if finishes == 0 then 0
    else match Budget(times)
      case RemoveShooter => 0
      case Fire(rest) => 1 + ShotsFired(rest, finishes - 1)
  }


  /** A budget of `k >= 0` fires exactly `k` shots; a negative budget fires on every finished cooldown. */
  lemma {:induction false} BudgetIsExact(times: int, finishes: nat)
    ensures times >= 0 ==> ShotsFired(times, finishes) == Min(times, finishes)
    ensures times < 0 ==> ShotsFired(times, finishes) == finishes
  {
    if finishes > 0 && times != 0 {
      BudgetIsExact(if times > 0 then times - 1 else times, finishes - 1);
    }
  }

  // ---------------------------------------------------------------------------
  // Spread
  // ---------------------------------------------------------------------------

  /** Rust's `i32` division, which truncates toward zero. */
  function RustDiv(a: int, b: int): (q: int)
    requires b > 0
    ensures a >= 0 ==> q == a / b
    ensures a < 0 ==> q == -((-a) / b)
  {
    if a >= 0 then a / b else -((-a) / b)
  }

  /** The offset index `i - (n - 1) / 2` of every bullet `i` in `0..n`. */
  function SpreadOffsets(n: int): (r: seq<int>)
    ensures |r| == if n < 0 then 0 else n
  {
    seq(if n < 0 then 0 else n, i => i - RustDiv(n - 1, 2))
  }

  /**
   * The offsets are consecutive integers around 0: the middle bullet flies straight, an
   * odd fan is symmetric and an even fan leans one step to the positive side.
   */
  lemma SpreadShape(n: int)
    requires n >= 1
    ensures var r := SpreadOffsets(n);
            && (forall i :: 0 <= i < n - 1 ==> r[i + 1] == r[i] + 1)
            && r[(n - 1) / 2] == 0
            && r[0] == -((n - 1) / 2)
            && (n % 2 == 1 ==> r[n - 1] == -r[0])
            && (n % 2 == 0 ==> r[n - 1] == -r[0] + 1)
  {
  }

  /** The spawning loop `for i in 0..num_bullets` of `fan_shoot` and `player_shoot`. */
  method FireSpread(n: int) returns (offsets: seq<int>)
    ensures offsets == SpreadOffsets(n)
  {
    offsets := [];
    var i := 0;
    while i < n
      invariant 0 <= i && (n >= 0 ==> i <= n) && (n < 0 ==> i == 0)
      invariant offsets == SpreadOffsets(n)[..i]
    {
      offsets := offsets + [i - RustDiv(n - 1, 2)];
      i := i + 1;
    }
  }

  /** `player_shoot`'s fan: the bullet count and the angle step in degrees, by power. */
  function PlayerSpread(powers: int): (r: (int, int))
    ensures r.0 in {1, 3, 5} && r.0 % 2 == 1
    ensures r.0 == 1 <==> powers <= 30
    ensures r.0 == 5 <==> powers > 50
    ensures r.1 == (if r.0 == 1 then 0 else 10)
  {
    if powers > 50 then (5, 10) else if powers > 30 then (3, 10) else (1, 0)
  }

  /** More power never means fewer bullets. */
  lemma PlayerSpreadMonotone(p: int, q: int)
    requires p <= q
    ensures PlayerSpread(p).0 <= PlayerSpread(q).0
  {
  }

  // ---------------------------------------------------------------------------
  // Shooters
  // ---------------------------------------------------------------------------

  /** A bullet a shooter spawned: its offset index in the fan and its collision groups. */
  datatype Shot = Shot(offset: int, groups: CollisionGroups)

  /** A laser is spawned with no collision groups; any other bullet with its target's. */
  function LaunchGroups(target: BulletTarget, laser: bool): (g: CollisionGroups)
    ensures laser <==> g == NoGroups
  {
    if laser then NoGroups else GroupsFor(target)
  }

  function ShotsOf(offsets: seq<int>, g: CollisionGroups): (r: seq<Shot>)
    ensures |r| == |offsets| && forall i :: 0 <= i < |r| ==> r[i] == Shot(offsets[i], g)
  {
    seq(|offsets|, i requires 0 <= i < |offsets| => Shot(offsets[i], g))
  }

  /**
   * An entity's `SingleShoot` or `FanShoot` component (a single shooter fires a fan of
   * one), and the bullets it has spawned.
   */
  class Shooter {
    var times: int
    var cooldown: Timer
    /** The component is still on its entity. */
    var attached: bool
    const numBullets: int
    const target: BulletTarget
    const laser: bool
    var spawned: seq<Shot>

    constructor (times: int, cooldown: Timer, numBullets: int, target: BulletTarget, laser: bool)
      ensures this.times == times && this.cooldown == cooldown && attached
      ensures this.numBullets == numBullets && this.target == target && this.laser == laser
      ensures spawned == []
    {
      this.times, this.cooldown, attached := times, cooldown, true;
      this.numBullets, this.target, this.laser := numBullets, target, laser;
      spawned := [];
    }

    /**
     * `single_shoot` (with `numBullets == 1`) and `fan_shoot` for this entity: tick the
     * cooldown; when it finishes, spend the budget and fire the fan, or remove the component.
     */
    method Shoot(delta: nat)
      requires attached
      modifies this
      ensures var t := Tick(old(cooldown), delta);
              if !t.finished then
                cooldown == t && times == old(times) && attached && spawned == old(spawned)
              else match Budget(old(times))
                case RemoveShooter =>
                  !attached && cooldown == t && times == old(times) && spawned == old(spawned)
                case Fire(rest) =>
                  attached && times == rest && cooldown == Reset(t) &&
                  spawned == old(spawned) + ShotsOf(SpreadOffsets(numBullets), LaunchGroups(target, laser))
    {
      cooldown := Tick(cooldown, delta);
      if !cooldown.finished {
        return;
      }
      if times > 0 {
        times := times - 1;
      } else if times == 0 {
        attached := false;
        return;
      }
      var offsets := FireSpread(numBullets);
      spawned := spawned + ShotsOf(offsets, LaunchGroups(target, laser));
      cooldown := Reset(cooldown);
    }
  }

  // ---------------------------------------------------------------------------
  // The player's gun
  // ---------------------------------------------------------------------------

  /** `ShootCooldown`: 0.1 s, in milliseconds. */
  const PlayerCooldownMs: nat := 100

  /** A bullet the player fired: its offset index and the fan's angle step in degrees. */
  datatype PlayerShot = PlayerShot(offset: int, stepDeg: int)

  function PlayerVolley(powers: int): (r: seq<PlayerShot>)
    ensures |r| == PlayerSpread(powers).0
  {
    var (n, step) := PlayerSpread(powers);
    seq(n, i requires 0 <= i < n => PlayerShot(SpreadOffsets(n)[i], step))
  }

  class PlayerGun {
    var cooldown: Timer
    var fired: seq<PlayerShot>

    constructor ()
      ensures cooldown == NewTimer(PlayerCooldownMs, Once) && fired == []
    {
      cooldown := NewTimer(PlayerCooldownMs, Once);
      fired := [];
    }

    /** `tick_cooldown_timer`. */
    method TickCooldown(delta: nat)
      modifies this
      ensures cooldown == Tick(old(cooldown), delta) && fired == old(fired)
    {
      cooldown := Tick(cooldown, delta);
    }

    /** `player_shoot` (while Z is held): fire the volley for the current power once the cooldown is over. */
    method Shoot(powers: int)
      modifies this
      ensures old(cooldown).finished ==> fired == old(fired) + PlayerVolley(powers) && cooldown == Reset(old(cooldown))
      ensures !old(cooldown).finished ==> fired == old(fired) && cooldown == old(cooldown)
    {
      if cooldown.finished {
        var (n, step) := PlayerSpread(powers);
        var offsets := FireSpread(n);
        fired := fired + seq(n, i requires 0 <= i < n => PlayerShot(offsets[i], step));
        cooldown := Reset(cooldown);
      }
    }
  }

  // ---------------------------------------------------------------------------
  // Support units
  // ---------------------------------------------------------------------------

  /** A support unit: its side of the player and its `SingleShoot` budget. */
  datatype SupportUnit = SupportUnit(offsetX: int, times: int)

  /** The pair `spawn_support_units` creates, left and right of the player, firing forever. */
  const UnitPair: seq<SupportUnit> := [SupportUnit(30, -1), SupportUnit(-30, -1)]

  /** One frame of `spawn_support_units` and `despawn_support_units` (they run when the power changed). */
  function SupportFrame(units: seq<SupportUnit>, powers: int, powersChanged: bool, playerExists: bool): (r: seq<SupportUnit>)
    ensures !powersChanged ==> r == units
    ensures powersChanged && powers < 1 ==> r == []
    ensures r == [] || units <= r
    ensures units == [] || units == UnitPair ==> r == [] || r == UnitPair
  {
    if !powersChanged then units
    else if powers < 1 then []
    else if |units| >= 2 || !playerExists then units
    else units + UnitPair
  }

  function SupportRun(units: seq<SupportUnit>, frames: seq<(int, bool, bool)>): seq<SupportUnit>
  {
    if frames == [] then units
    else
      var f := frames[|frames| - 1];
      SupportFrame(SupportRun(units, frames[..|frames| - 1]), f.0, f.1, f.2)
  }

  /**
   * From no units, any sequence of frames leaves either none or exactly the pair; the pair
   * never runs out of shots; and a changed power below 1 removes them.
   */
  lemma {:induction false} SupportUnitsPaired(frames: seq<(int, bool, bool)>)
    ensures var u := SupportRun([], frames); u == [] || u == UnitPair
    ensures forall i :: 0 <= i < |SupportRun([], frames)| ==> Budget(SupportRun([], frames)[i].times) == Fire(-1)
    ensures frames != [] && frames[|frames| - 1].1 && frames[|frames| - 1].0 < 1 ==> SupportRun([], frames) == []
  {
    if frames != [] {
      SupportUnitsPaired(frames[..|frames| - 1]);
    }
  }

  class SupportUnits {
    var units: seq<SupportUnit>

    predicate Valid()
      reads this
    {
      units == [] || units == UnitPair
    }

    constructor ()
      ensures units == [] && Valid()
    {
      units := [];
    }

    /** `spawn_support_units`: with power and fewer than two units, spawn the pair on the player. */
    method Spawn(powers: int, playerExists: bool)
      requires Valid()
      modifies this
      ensures Valid()
      ensures units == if powers < 1 || |old(units)| >= 2 || !playerExists then old(units) else old(units) + UnitPair
    {
      if powers < 1 || |units| >= 2 {
        return;
      }
      if playerExists {
        units := units + UnitPair;
      }
    }

    /** `despawn_support_units`: without power, every unit goes. */
    method Despawn(powers: int)
      requires Valid()
      modifies this
      ensures Valid()
      ensures units == if powers < 1 then [] else old(units)
    {
      if powers < 1 {
        units := [];
      }
    }
  }
}
