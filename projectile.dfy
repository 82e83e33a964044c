/**
 * Projectiles (Projectile.cs): straight-line motion with a velocity fixed at
 * launch, a lifetime that counts down, a one-way alive flag, and the point-in-rectangle
 * hit test on truncated coordinates.
 */
module Projectiles {
  import opened Geometry

  const LASER := "laser"
  const CANNON := "cannon"

  /** Seconds a projectile lives after launch. */
  const LIFETIME: real := 3.0

  /** Everything the simulation can observe of one projectile (colour and size are left out). */
  datatype Flight = Flight(
    x: real, y: real,
    angle: real, speed: real,
    damage: int, kind: string, ownerId: int,
    lifetime: real, alive: bool,
    vx: real, vy: real)

  /** A projectile as its constructor builds it; the velocity comes from the angle once. */
  function Launch(x: real, y: real, angle: real, speed: real, damage: int, kind: string, ownerId: int, trig: Trig): (f: Flight)
    ensures f.x == x && f.y == y && f.angle == angle && f.speed == speed
    ensures f.damage == damage && f.kind == kind && f.ownerId == ownerId
    ensures f.lifetime == LIFETIME && f.alive
    ensures f.vx == trig.cos(angle) * speed && f.vy == trig.sin(angle) * speed
  {
    Flight(x, y, angle, speed, damage, kind, ownerId, LIFETIME, true, trig.cos(angle) * speed, trig.sin(angle) * speed)
  }

  /** The fields that no Update changes (the alive flag and position aside). */
  predicate SameShot(a: Flight, b: Flight) {
    a.angle == b.angle && a.speed == b.speed && a.damage == b.damage && a.kind == b.kind &&
    a.ownerId == b.ownerId && a.vx == b.vx && a.vy == b.vy
  }

  /** Update(dt): a dead projectile is left alone; a live one moves, ages, and dies at lifetime <= 0. */
  function Advance(f: Flight, dt: real): (r: Flight)
    ensures !f.alive ==> r == f
    ensures f.alive ==> r.x == f.x + f.vx * dt && r.y == f.y + f.vy * dt && r.lifetime == f.lifetime - dt
    ensures !r.alive <==> !f.alive || r.lifetime <= 0.0
    ensures SameShot(f, r)
  {
    if !f.alive then f
    else
      var moved := f.(x := f.x + f.vx * dt, y := f.y + f.vy * dt, lifetime := f.lifetime - dt);
      if moved.lifetime <= 0.0 then moved.(alive := false) else moved
  }

  /** The projectile after one Update per frame. */
  function Fly(f: Flight, dts: seq<real>): Flight
    decreases |dts|
  {
    if dts == [] then f else Fly(Advance(f, dts[0]), dts[1..])
  }

  /** Once dead, no later Update revives a projectile or changes it at all. */
  lemma {:induction false} DeadStaysDead(f: Flight, dts: seq<real>)
    requires !f.alive
    ensures Fly(f, dts) == f
    decreases |dts|
  {
    if dts != [] {
      DeadStaysDead(Advance(f, dts[0]), dts[1..]);
    }
  }

  /**
   * Over any number of frames the damage, owner, angle, speed, type and velocity stay as
   * launched, and a projectile still alive at the end was alive all along: it has moved in
   * a straight line by its velocity times the elapsed time, and its lifetime is what was
   * left minus that time, still positive once a frame has passed.
   */
  lemma {:induction false} StraightFlight(f: Flight, dts: seq<real>)
    ensures SameShot(f, Fly(f, dts))
    ensures Fly(f, dts).alive ==> f.alive
    ensures Fly(f, dts).alive ==>
      Fly(f, dts).x == f.x + f.vx * Elapsed(dts) &&
      Fly(f, dts).y == f.y + f.vy * Elapsed(dts) &&
      Fly(f, dts).lifetime == f.lifetime - Elapsed(dts) &&
      (dts != [] ==> 0.0 < Fly(f, dts).lifetime)
    decreases |dts|
  {
    if dts != [] {
      var g := Advance(f, dts[0]);
      var h := Fly(g, dts[1..]);
      assert Fly(f, dts) == h;
      assert Elapsed(dts) == dts[0] + Elapsed(dts[1..]);
      StraightFlight(g, dts[1..]);
      if h.alive {
        assert g.alive && f.alive;
        FlightStep(f, g, h, dts[0], Elapsed(dts[1..]));
      }
    }
  }

  /** One live step followed by straight flight over elapsed time e is straight flight over dt + e. */
  lemma FlightStep(f: Flight, g: Flight, h: Flight, dt: real, e: real)
    requires f.alive && g == Advance(f, dt) && g.alive
    requires h.x == g.x + g.vx * e && h.y == g.y + g.vy * e && h.lifetime == g.lifetime - e
    ensures h.x == f.x + f.vx * (dt + e) && h.y == f.y + f.vy * (dt + e)
    ensures h.lifetime == f.lifetime - (dt + e)
  {
    Distributes(f.vx, dt, e);
    Distributes(f.vy, dt, e);
  }

  /** Moving by one step and then by the rest is moving by the sum. */
  lemma Distributes(v: real, a: real, b: real)
    ensures v * a + v * b == v * (a + b)
  {
  }

  /** A projectile that is updated for at least its remaining lifetime is dead. */
  lemma ExpiresAfterLifetime(f: Flight, dts: seq<real>)
    requires dts != [] && f.lifetime <= Elapsed(dts)
    ensures !Fly(f, dts).alive
  {
    StraightFlight(f, dts);
  }

  /** CheckCollision: the truncated position lies in the half-open rectangle. */
  predicate Hits(f: Flight, r: Rect) {
    r.Contains(Trunc(f.x), Trunc(f.y))
  }

  /** A hit puts the true position within one unit of the rectangle on every side. */
  lemma HitIsNearRect(f: Flight, r: Rect)
    requires Hits(f, r)
    ensures r.x as real - 1.0 < f.x < (r.x + r.width) as real + 1.0
    ensures r.y as real - 1.0 < f.y < (r.y + r.height) as real + 1.0
  {
  }

  /** At non-negative coordinates, a position truly inside the rectangle is a hit. */
  lemma InsideAtNonNegativeIsHit(f: Flight, r: Rect)
    requires 0.0 <= f.x && 0.0 <= f.y
    requires r.x as real <= f.x < (r.x + r.width) as real
    requires r.y as real <= f.y < (r.y + r.height) as real
    ensures Hits(f, r)
  {
  }

  /**
   * Truncation toward zero makes the test lopsided at negative coordinates: a projectile
   * at (-0.5, -0.5) is inside the rectangle [-1, 0) x [-1, 0) yet is looked up as (0, 0) and misses.
   */
  lemma NegativeInsideMisses(f: Flight)
    requires f.x == -0.5 && f.y == -0.5
    ensures !Hits(f, Rect(-1, -1, 1, 1))
  {
  }

  /** One projectile in flight. */
  class Projectile {
    var x: real
    var y: real
    var angle: real
    var speed: real
    var damage: int
    var kind: string
    var ownerId: int
    var lifetime: real
    var alive: bool
    var vx: real
    var vy: real

    function Value(): Flight
      reads this
    {
      Flight(x, y, angle, speed, damage, kind, ownerId, lifetime, alive, vx, vy)
    }

    constructor (x: real, y: real, angle: real, speed: real, damage: int, kind: string, ownerId: int, trig: Trig)
      ensures Value() == Launch(x, y, angle, speed, damage, kind, ownerId, trig)
    {
      this.x := x;
      this.y := y;
      this.angle := angle;
      this.speed := speed;
      this.damage := damage;
      this.kind := kind;
      this.ownerId := ownerId;
      lifetime := LIFETIME;
      alive := true;
      vx := trig.cos(angle) * speed;
      vy := trig.sin(angle) * speed;
    }

    method Update(dt: real)
      modifies this
      ensures Value() == Advance(old(Value()), dt)
    {
      if !alive {
        return;
      }
      x := x + vx * dt;
      y := y + vy * dt;
      lifetime := lifetime - dt;
      if lifetime <= 0.0 {
        alive := false;
      }
    }

    predicate CheckCollision(r: Rect)
      reads this
      ensures CheckCollision(r) <==> Hits(Value(), r)
    {
      r.Contains(Trunc(x), Trunc(y))
    }
  }
}
