/**
 * Ship components (Components.cs): the per-type stats table, the value a component
 * holds at any moment, the functions that say how damage, cooldown and firing
 * change that value, and the mutable Component class that follows them.
 */
module Components {
  import opened Geometry

  // The component type tags.
  const CORE := "core"
  const ENGINE := "engine"
  const WEAPON_LASER := "weapon_laser"
  const WEAPON_CANNON := "weapon_cannon"
  const ARMOR := "armor"
  const POWER := "power"
  const SHIELD := "shield"

  /** The seven tags that have a row of their own in the stats table. */
  predicate IsKnownKind(kind: string) {
    kind == CORE || kind == ENGINE || kind == WEAPON_LASER || kind == WEAPON_CANNON ||
    kind == ARMOR || kind == POWER || kind == SHIELD
  }

  predicate IsWeapon(kind: string) {
    kind == WEAPON_LASER || kind == WEAPON_CANNON
  }

  /** Health, power and thrust numbers of one component (the colour is left out). */
  datatype ComponentStats = ComponentStats(
    name: string,
    health: int,
    maxHealth: int,
    powerConsumption: int,
    powerGeneration: int,
    thrust: real)

  /** The invariant the source keeps for every component it creates: 0 <= health <= maxHealth. */
  predicate Healthy(s: ComponentStats) {
    0 <= s.health <= s.maxHealth
  }

  /** The per-type table of Component.GetStats, with its fallback for unknown tags. */
  function GetStats(kind: string): (s: ComponentStats)
    ensures s.health == s.maxHealth && 0 < s.maxHealth
    ensures 0 <= s.powerConsumption && 0 <= s.powerGeneration && 0.0 <= s.thrust
    ensures 0.0 < s.thrust <==> kind == ENGINE
    ensures 0 < s.powerGeneration <==> kind == CORE || kind == POWER
    ensures s.name == "Unknown" <==> !IsKnownKind(kind)
    ensures !IsKnownKind(kind) ==> s == ComponentStats("Unknown", 50, 50, 0, 0, 0.0)
  {
    if kind == CORE then ComponentStats("Core", 200, 200, 0, 50, 0.0)
    else if kind == ENGINE then ComponentStats("Engine", 50, 50, 10, 0, 200.0)
    else if kind == WEAPON_LASER then ComponentStats("Laser", 40, 40, 15, 0, 0.0)
    else if kind == WEAPON_CANNON then ComponentStats("Cannon", 60, 60, 20, 0, 0.0)
    else if kind == ARMOR then ComponentStats("Armor", 150, 150, 0, 0, 0.0)
    else if kind == POWER then ComponentStats("Reactor", 80, 80, 0, 100, 0.0)
    else if kind == SHIELD then ComponentStats("Shield", 30, 30, 25, 0, 0.0)
    else ComponentStats("Unknown", 50, 50, 0, 0, 0.0)
  }

  /** Everything the simulation can observe of one component (the cosmetic rotation is left out). */
  datatype Part = Part(kind: string, gridX: int, gridY: int, stats: ComponentStats, cooldown: real)

  /** A component as its constructor builds it. */
  function Initial(kind: string, gridX: int, gridY: int): (p: Part)
    ensures p.kind == kind && p.gridX == gridX && p.gridY == gridY
    ensures p.stats == GetStats(kind) && p.cooldown == 0.0
    ensures Healthy(p.stats) && p.stats.health == p.stats.maxHealth
  {
    Part(kind, gridX, gridY, GetStats(kind), 0.0)
  }

  function Max(a: int, b: int): int {
    if a >= b then a else b
  }

  /**
   * TakeDamage: health drops by `damage`, is clamped at 0, and the flag says whether
   * it ended at 0. Nothing but the health changes.
   */
  function AfterDamage(p: Part, damage: int): (r: (Part, bool))
    ensures r.0 == p.(stats := p.stats.(health := r.0.stats.health))
    ensures r.0.stats.health == Max(0, p.stats.health - damage)
    ensures 0 <= r.0.stats.health
    ensures r.1 <==> r.0.stats.health == 0
    ensures 0 <= damage && Healthy(p.stats) ==> Healthy(r.0.stats) && r.0.stats.health <= p.stats.health
  {
    var h := p.stats.health - damage;
    if h <= 0 then (p.(stats := p.stats.(health := 0)), true)
    else (p.(stats := p.stats.(health := h)), false)
  }

  /** Update: the cooldown runs down by dt while it is positive and is left alone otherwise. */
  function AfterUpdate(p: Part, dt: real): (r: Part)
    ensures r.kind == p.kind && r.gridX == p.gridX && r.gridY == p.gridY && r.stats == p.stats
    ensures 0.0 < p.cooldown ==> r.cooldown == p.cooldown - dt
    ensures p.cooldown <= 0.0 ==> r == p
  {
    if p.cooldown > 0.0 then p.(cooldown := p.cooldown - dt) else p
  }

  /** CanFire: a weapon, with its cooldown run out and some health left. */
  predicate CanFireNow(p: Part) {
    IsWeapon(p.kind) && p.cooldown <= 0.0 && p.stats.health > 0
  }

  /** The cooldown Fire sets: 0.5 s for a laser, 1.5 s for a cannon. */
  function FireCooldown(kind: string): real
    requires IsWeapon(kind)
  {
    if kind == WEAPON_LASER then 0.5 else 1.5
  }

  /** Fire: resets a weapon's cooldown and changes nothing for any other component. */
  function AfterFire(p: Part): (r: Part)
    ensures IsWeapon(p.kind) ==> r == p.(cooldown := FireCooldown(p.kind))
    ensures !IsWeapon(p.kind) ==> r == p
  {
    if p.kind == WEAPON_LASER then p.(cooldown := 0.5)
    else if p.kind == WEAPON_CANNON then p.(cooldown := 1.5)
    else p
  }

  /** A weapon that has just fired cannot fire again until its cooldown has run out. */
  lemma FiredWeaponIsCoolingDown(p: Part)
    requires CanFireNow(p)
    ensures !CanFireNow(AfterFire(p))
    ensures 0.0 < AfterFire(p).cooldown && AfterFire(p).stats == p.stats
  {
  }

  /** The component after one Update per frame, frame times taken in order. */
  function UpdateAll(p: Part, dts: seq<real>): Part
    decreases |dts|
  {
    if dts == [] then p else UpdateAll(AfterUpdate(p, dts[0]), dts[1..])
  }

  /**
   * Updates never touch the stats, and once frames of positive length have added up to the
   * cooldown the weapon is ready: a healthy weapon can then fire again.
   */
  lemma {:induction false} CoolingReachesReady(p: Part, dts: seq<real>)
    requires forall i :: 0 <= i < |dts| ==> 0.0 < dts[i]
    requires p.cooldown <= Elapsed(dts)
    ensures UpdateAll(p, dts).stats == p.stats && UpdateAll(p, dts).kind == p.kind
    ensures UpdateAll(p, dts).cooldown <= 0.0
    ensures IsWeapon(p.kind) && 0 < p.stats.health ==> CanFireNow(UpdateAll(p, dts))
    decreases |dts|
  {
    if dts != [] {
      ElapsedOfPositive(dts[1..]);
      CoolingReachesReady(AfterUpdate(p, dts[0]), dts[1..]);
    }
  }

  /** The component after a series of TakeDamage calls. */
  function DamageAll(p: Part, hits: seq<int>): Part
    decreases |hits|
  {
    if hits == [] then p else DamageAll(AfterDamage(p, hits[0]).0, hits[1..])
  }

  /**
   * Over any series of non-negative hits, the invariant 0 <= health <= maxHealth holds,
   * health never grows, and a component at 0 health stays at 0.
   */
  lemma {:induction false} DamageSeriesKeepsHealthy(p: Part, hits: seq<int>)
    requires Healthy(p.stats)
    requires forall i :: 0 <= i < |hits| ==> 0 <= hits[i]
    ensures Healthy(DamageAll(p, hits).stats)
    ensures DamageAll(p, hits).stats.health <= p.stats.health
    ensures DamageAll(p, hits).stats.maxHealth == p.stats.maxHealth
    ensures p.stats.health == 0 ==> DamageAll(p, hits).stats.health == 0
    decreases |hits|
  {
    if hits != [] {
      DamageSeriesKeepsHealthy(AfterDamage(p, hits[0]).0, hits[1..]);
    }
  }

  /** One module of a ship, mutated in place by damage, updates and firing. */
  class Component {
    const kind: string
    const gridX: int
    const gridY: int
    var stats: ComponentStats
    var cooldown: real

    /** The observable value of this component. */
    function Value(): Part
      reads this
    {
      Part(kind, gridX, gridY, stats, cooldown)
    }

    constructor (kind: string, gridX: int, gridY: int)
      ensures Value() == Initial(kind, gridX, gridY)
    {
      this.kind := kind;
      this.gridX := gridX;
      this.gridY := gridY;
      stats := GetStats(kind);
      cooldown := 0.0;
    }

    method TakeDamage(damage: int) returns (destroyed: bool)
      modifies this
      ensures (Value(), destroyed) == AfterDamage(old(Value()), damage)
    {
      stats := stats.(health := stats.health - damage);
      if stats.health <= 0 {
        stats := stats.(health := 0);
        return true;
      }
      return false;
    }

    method Update(dt: real)
      modifies this
      ensures Value() == AfterUpdate(old(Value()), dt)
    {
      if cooldown > 0.0 {
        cooldown := cooldown - dt;
      }
    }

    predicate CanFire()
      reads this
      ensures CanFire() <==> CanFireNow(Value())
    {
      (kind == WEAPON_LASER || kind == WEAPON_CANNON) && cooldown <= 0.0 && stats.health > 0
    }

    method Fire()
      modifies this
      ensures Value() == AfterFire(old(Value()))
    {
      if kind == WEAPON_LASER {
        cooldown := 0.5;
      } else if kind == WEAPON_CANNON {
        cooldown := 1.5;
      }
    }
  }
}
