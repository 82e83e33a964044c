/**
 * The Python mirror of the projectile (game/src/projectile.py). It follows the
 * same value functions as the C# class.
 */
module PyProjectiles {
  import opened Geometry
  import opened Projectiles

  /** The Python `Projectile` class. */
  class Projectile {
    var x: real
    var y: real
    var angle: real
    var speed: real
    var damage: int
    var kind: string
    var ownerId: int
    var lifetime: real
    var alive: bool
    var vx: real
    var vy: real

    function Value(): Flight
      reads this
    {
      Flight(x, y, angle, speed, damage, kind, ownerId, lifetime, alive, vx, vy)
    }

    constructor (x: real, y: real, angle: real, speed: real, damage: int, kind: string, ownerId: int, trig: Trig)
      ensures Value() == Launch(x, y, angle, speed, damage, kind, ownerId, trig)
    {
      this.x := x;
      this.y := y;
      this.angle := angle;
      this.speed := speed;
      this.damage := damage;
      this.kind := kind;
      this.ownerId := ownerId;
      lifetime := 3.0;
      alive := true;
      vx := trig.cos(angle) * speed;
      vy := trig.sin(angle) * speed;
    }

    method Update(dt: real)
      modifies this
      ensures Value() == Advance(old(Value()), dt)
    {
      if !alive {
        return;
      }
      x := x + vx * dt;
      y := y + vy * dt;
      lifetime := lifetime - dt;
      if lifetime <= 0.0 {
        alive := false;
      }
    }

    predicate CheckCollision(r: Rect)
      reads this
      ensures CheckCollision(r) <==> Hits(Value(), r)
    {
      r.Contains(Trunc(x), Trunc(y))
    }
  }
}
