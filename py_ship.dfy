/**
 * The Python mirror of the ship (game/src/ship.py): the same component list, aggregates,
 * firing, damage routing and pursuit as the C# ship, without a crew, and with Python's
 * floored remainder for the heading wrap. Every method is proved against the value-level
 * functions of ShipSpec.
 */
module PyShips {
  import opened Config
  import opened Geometry
  import opened Components
  import opened Projectiles
  import opened ShipSpec
  import opened Lists
  import PyComponents
  import PyProjectiles

  // ---------------------------------------------------------------- lists of objects as values

  /** The values of a list of components, in list order. */
  function PartsOf(cs: seq<PyComponents.Component>): (ps: seq<Part>)
    reads cs
    ensures |ps| == |cs|
    ensures forall i :: 0 <= i < |cs| ==> ps[i] == cs[i].Value()
  {
    seq(|cs|, i requires 0 <= i < |cs| reads cs => cs[i].Value())
  }

  /** The values of a list of projectiles, in list order. */
  function FlightsOf(fs: seq<PyProjectiles.Projectile>): (r: seq<Flight>)
    reads fs
    ensures |r| == |fs|
    ensures forall i :: 0 <= i < |fs| ==> r[i] == fs[i].Value()
  {
    seq(|fs|, i requires 0 <= i < |fs| reads fs => fs[i].Value())
  }

  /** Cutting one component out of the list cuts its value out of the values. */
  lemma PartsOfWithout(cs: seq<PyComponents.Component>, i: nat)
    requires i < |cs|
    ensures PartsOf(cs[..i] + cs[i + 1..]) == PartsOf(cs)[..i] + PartsOf(cs)[i + 1..]
  {
  }

  /** A list of components whose objects hold the given values has exactly those values. */
  lemma PartsOfValues(cs: seq<PyComponents.Component>, vs: seq<Part>)
    requires |cs| == |vs| && forall k :: 0 <= k < |cs| ==> cs[k].Value() == vs[k]
    ensures PartsOf(cs) == vs
  {
  }

  /** Components none of which changed keep their values. */
  twostate lemma PartsUnchanged(cs: seq<PyComponents.Component>)
    requires forall k :: 0 <= k < |cs| ==> unchanged(cs[k])
    ensures PartsOf(cs) == old(PartsOf(cs))
  {
  }

  /** Projectiles none of which changed keep their values. */
  twostate lemma FlightsUnchanged(fs: seq<PyProjectiles.Projectile>)
    requires forall k :: 0 <= k < |fs| ==> unchanged(fs[k])
    ensures FlightsOf(fs) == old(FlightsOf(fs))
  {
  }

  /** Appending projectiles appends their values. */
  lemma FlightsAppend(fs: seq<PyProjectiles.Projectile>, gs: seq<PyProjectiles.Projectile>)
    ensures FlightsOf(fs + gs) == FlightsOf(fs) + FlightsOf(gs)
  {
  }

  /** The list comprehension of remove_component: the components not at (gx, gy), in order. */
  function Keep(cs: seq<PyComponents.Component>, gx: int, gy: int): (r: seq<PyComponents.Component>)
    ensures forall c :: c in r ==> c in cs && !(c.gridX == gx && c.gridY == gy)
    decreases |cs|
  {
    if cs == [] then []
    else
      var last := cs[|cs| - 1];
      assert cs == cs[..|cs| - 1] + [last];
      var rest := Keep(cs[..|cs| - 1], gx, gy);
      if last.gridX == gx && last.gridY == gy then rest else rest + [last]
  }

  /** Filtering the objects at a cell filters exactly the values at that cell. */
  lemma {:induction false} KeepParts(cs: seq<PyComponents.Component>, gx: int, gy: int)
    ensures PartsOf(Keep(cs, gx, gy)) == RemoveAt(PartsOf(cs), gx, gy)
    decreases |cs|
  {
    if cs != [] {
      var front := cs[..|cs| - 1];
      KeepParts(front, gx, gy);
      assert PartsOf(cs)[..|cs| - 1] == PartsOf(front);
    }
  }

  /** Filtering a list without repeats gives a list without repeats. */
  lemma {:induction false} KeepDistinct(cs: seq<PyComponents.Component>, gx: int, gy: int)
    requires Distinct(cs)
    ensures Distinct(Keep(cs, gx, gy))
    decreases |cs|
  {
    if cs != [] {
      var front := cs[..|cs| - 1];
      KeepDistinct(front, gx, gy);
      assert cs[|cs| - 1] !in front;
    }
  }

  // ---------------------------------------------------------------- value-level facts

  /**
   * get_bounds as written: the grid centre is `grid_width // 2` cells, the box's corner is
   * offset by `width // 2`, and pygame.Rect truncates its coordinates.
   */
  function PyBounds(ps: seq<Part>, sx: real, sy: real, cx: int, cy: int): Rect {
    if |ps| == 0 then Rect(Trunc(sx), Trunc(sy), 1, 1)
    else
      var minX, maxX := MinGridX(ps), MaxGridX(ps);
      var minY, maxY := MinGridY(ps), MaxGridY(ps);
      var width := (maxX - minX + 1) * GRID_SIZE;
      var height := (maxY - minY + 1) * GRID_SIZE;
      var offsetX := (minX + maxX) as real / 2.0 - cx as real;
      var offsetY := (minY + maxY) as real / 2.0 - cy as real;
      Rect(Trunc(sx + offsetX * GRID_SIZE as real - (width / 2) as real),
           Trunc(sy + offsetY * GRID_SIZE as real - (height / 2) as real),
           width, height)
  }

  /**
   * The Python box is the C# one: the extents are whole multiples of the cell size, so the
   * floor division by 2 is exact.
   */
  lemma PyBoundsAgree(ps: seq<Part>, sx: real, sy: real, cx: int, cy: int)
    ensures PyBounds(ps, sx, sy, cx, cy) == Bounds(ps, sx, sy, cx as real, cy as real)
  {
    if |ps| != 0 {
      HalfCells(MaxGridX(ps) - MinGridX(ps) + 1);
      HalfCells(MaxGridY(ps) - MinGridY(ps) + 1);
    }
  }

  /** Halving a whole number of cells is exact. */
  lemma HalfCells(k: int)
    ensures (k * GRID_SIZE / 2) as real == (k * GRID_SIZE) as real / 2.0
  {
    assert k * GRID_SIZE / 2 == k * 16;
  }

  /** get_bounds' box, in closed form: whole cells, half a cell before the outermost centres. */
  lemma PyBoundsShape(ps: seq<Part>, sx: real, sy: real, cx: int, cy: int)
    requires ps != []
    ensures PyBounds(ps, sx, sy, cx, cy).width == (MaxGridX(ps) - MinGridX(ps) + 1) * GRID_SIZE
    ensures PyBounds(ps, sx, sy, cx, cy).height == (MaxGridY(ps) - MinGridY(ps) + 1) * GRID_SIZE
    ensures PyBounds(ps, sx, sy, cx, cy).x == Trunc(CellCentre(sx, MinGridX(ps), cx as real) - 16.0)
    ensures PyBounds(ps, sx, sy, cx, cy).y == Trunc(CellCentre(sy, MinGridY(ps), cy as real) - 16.0)
  {
    PyBoundsAgree(ps, sx, sy, cx, cy);
    BoundsShape(ps, sx, sy, cx as real, cy as real);
  }

  /**
   * fire_weapons' spawn position: the offset from the grid centre (cx, cy) in whole cells,
   * times GRID_SIZE, computed on integers, then rotated by the heading and added to the
   * ship position.
   */
  function PySpawn(p: Part, sx: real, sy: real, angle: real, cx: int, cy: int, trig: Trig): (real, real) {
    var localX := ((p.gridX - cx) * GRID_SIZE) as real;
    var localY := ((p.gridY - cy) * GRID_SIZE) as real;
    var rotated := Rotation(localX, localY, angle, trig);
    (sx + rotated.0, sy + rotated.1)
  }

  /** The integer offsets are the real ones SpawnPoint uses, so both versions spawn at the same point. */
  lemma PySpawnAgrees(p: Part, sx: real, sy: real, angle: real, cx: int, cy: int, trig: Trig)
    ensures PySpawn(p, sx, sy, angle, cx, cy, trig) == SpawnPoint(p, sx, sy, angle, cx as real, cy as real, trig)
  {
    assert ((p.gridX - cx) * GRID_SIZE) as real == (p.gridX as real - cx as real) * GRID_SIZE as real;
    assert ((p.gridY - cy) * GRID_SIZE) as real == (p.gridY as real - cy as real) * GRID_SIZE as real;
  }

  /**
   * With a sound square root, the Python tick leaves the speed at most MAX_VELOCITY and the
   * heading in [0, 2 pi), as Python's `%` never returns a negative result.
   */
  lemma TickPyBounds(m: Motion, dt: real, trig: Trig)
    requires SqrtSound(trig)
    ensures var r := TickPy(m, dt, trig);
      SquaredLength(r.vx, r.vy) <= MAX_VELOCITY * MAX_VELOCITY && 0.0 <= r.angle < TWO_PI
  {
    CoastEffect(m, dt, trig);
  }

  // ---------------------------------------------------------------- ship

  /** A ship: its motion, its component list with the aggregates cached over it, and its AI target. */
  class Ship {
    var x: real
    var y: real
    const shipId: int
    const isPlayer: bool
    var angle: real
    var vx: real
    var vy: real
    var angularVelocity: real
    var components: seq<PyComponents.Component>
    const gridWidth: int := 10
    const gridHeight: int := 10
    var totalHealth: int
    var maxHealth: int
    var powerAvailable: int
    var powerUsed: int
    var totalThrust: real
    var target: Ship?

    function Parts(): seq<Part>
      reads this, components
    {
      PartsOf(components)
    }

    function Stats(): Totals
      reads this
    {
      Totals(totalHealth, maxHealth, powerAvailable, powerUsed, totalThrust)
    }

    function Kinematics(): Motion
      reads this
    {
      Motion(x, y, angle, vx, vy, angularVelocity)
    }

    /** The grid centre, in cells: grid_width // 2 and grid_height // 2. */
    function CentreX(): int {
      gridWidth / 2
    }

    function CentreY(): int {
      gridHeight / 2
    }

    /** The 10 x 10 grid's centre cell. */
    lemma CentreCell()
      ensures CentreX() == 5 && CentreY() == 5
    {
    }

    /** The ship's invariant: no component object is listed twice, and the cached aggregates are those of the components. */
    predicate Valid()
      reads this, components
    {
      Distinct(components) && Stats() == Aggregate(Parts())
    }

    constructor (x: real, y: real, shipId: int, isPlayer: bool)
      ensures Valid()
      ensures Kinematics() == Motion(x, y, 0.0, 0.0, 0.0, 0.0)
      ensures this.shipId == shipId && this.isPlayer == isPlayer && target == null
      ensures Parts() == if isPlayer then PlayerLayout() else EnemyLayout()
    {
      this.x := x;
      this.y := y;
      this.shipId := shipId;
      this.isPlayer := isPlayer;
      angle := 0.0;
      vx := 0.0;
      vy := 0.0;
      angularVelocity := 0.0;
      components := [];
      totalHealth, maxHealth, powerAvailable, powerUsed, totalThrust := 0, 0, 0, 0, 0.0;
      target := null;
      new;
      TablesBuildLayouts();
      if isPlayer {
        AddCells(PLAYER_CELLS);
      } else {
        AddCells(ENEMY_CELLS);
      }
      RecalculateStats();
    }

    /** `components.append(Component(kind, gx, gy))`. */
    method AddNew(kind: string, gx: int, gy: int)
      requires Distinct(components)
      modifies this
      ensures Distinct(components)
      ensures Parts() == old(Parts()) + [Initial(kind, gx, gy)]
      ensures Kinematics() == old(Kinematics()) && Stats() == old(Stats()) && target == old(target)
    {
      var c := new PyComponents.Component(kind, gx, gy);
      components := components + [c];
    }

    /** The appends of _create_player_ship or _create_enemy_ship, one per entry of the layout table, in order. */
    method AddCells(cells: seq<Cell>)
      requires Distinct(components)
      modifies this
      ensures Distinct(components)
      ensures Parts() == old(Parts()) + Build(cells)
      ensures Kinematics() == old(Kinematics()) && Stats() == old(Stats()) && target == old(target)
    {
      for i := 0 to |cells|
        invariant Distinct(components)
        invariant Parts() == old(Parts()) + Build(cells[..i])
        invariant Kinematics() == old(Kinematics()) && Stats() == old(Stats()) && target == old(target)
      {
        AddNew(cells[i].kind, cells[i].gridX, cells[i].gridY);
        BuildSnoc(cells, i);
      }
      assert cells[..|cells|] == cells;
    }

    /** _recalculate_stats: the aggregates summed afresh over the components. */
    method RecalculateStats()
      modifies this`totalHealth, this`maxHealth, this`powerAvailable, this`powerUsed, this`totalThrust
      ensures Stats() == Aggregate(Parts())
      ensures components == old(components) && Parts() == old(Parts()) && Kinematics() == old(Kinematics())
      ensures target == old(target)
    {
      ghost var ps := Parts();
      var t := SumStats(components);
      totalHealth, maxHealth, powerAvailable, powerUsed, totalThrust := t.health, t.maxHealth, t.powerAvailable, t.powerUsed, t.thrust;
      assert Parts() == ps && Stats() == t;
    }

    /** The loop of _recalculate_stats: health, maximum health, power generated, power used and thrust, in order. */
    method SumStats(cs: seq<PyComponents.Component>) returns (t: Totals)
      ensures t == Aggregate(PartsOf(cs))
    {
      ghost var ps := PartsOf(cs);
      var health, maxH, available, used, thrust := 0, 0, 0, 0, 0.0;
      var i := 0;
      while i < |cs|
        invariant 0 <= i <= |cs|
        invariant Totals(health, maxH, available, used, thrust) == Aggregate(ps[..i])
      {
        var s := cs[i].stats;
        assert s == ps[i].stats;
        AggregateStep(ps, i);
        health := health + s.health;
        maxH := maxH + s.maxHealth;
        available := available + s.powerGeneration;
        used := used + s.powerConsumption;
        thrust := thrust + s.thrust;
        i := i + 1;
      }
      assert ps[..i] == ps;
      t := Totals(health, maxH, available, used, thrust);
    }

    method AddComponent(component: PyComponents.Component)
      requires Valid() && component !in components
      modifies this
      ensures Valid()
      ensures components == old(components) + [component]
      ensures Parts() == old(Parts()) + [component.Value()]
      ensures Kinematics() == old(Kinematics()) && target == old(target)
    {
      components := components + [component];
      RecalculateStats();
    }

    method RemoveComponent(gridX: int, gridY: int)
      requires Valid()
      modifies this
      ensures Valid()
      ensures components == Keep(old(components), gridX, gridY)
      ensures Parts() == RemoveAt(old(Parts()), gridX, gridY)
      ensures Kinematics() == old(Kinematics()) && target == old(target)
    {
      KeepParts(components, gridX, gridY);
      KeepDistinct(components, gridX, gridY);
      components := Keep(components, gridX, gridY);
      RecalculateStats();
    }

    /** The loop of get_component_at: the first component in list order at the cell, or None. */
    method GetComponentAt(gridX: int, gridY: int) returns (c: PyComponents.Component?)
      ensures c == null <==> FindAt(Parts(), gridX, gridY).Missing?
      ensures c != null ==> c == components[FindAt(Parts(), gridX, gridY).index]
    {
      for i := 0 to |components|
        invariant forall k :: 0 <= k < i ==> !At(Parts()[k], gridX, gridY)
      {
        if components[i].gridX == gridX && components[i].gridY == gridY {
          assert At(Parts()[i], gridX, gridY);
          return components[i];
        }
      }
      return null;
    }

    /** The loop of is_destroyed: the ship is destroyed when no core is left. */
    method IsDestroyed() returns (destroyed: bool)
      ensures destroyed <==> !HasCore(Parts())
    {
      for i := 0 to |components|
        invariant forall k :: 0 <= k < i ==> Parts()[k].kind != CORE
      {
        if components[i].kind == CORE {
          assert Parts()[i].kind == CORE;
          return false;
        }
      }
      return true;
    }

    /** get_bounds: the world-space box of the occupied part of the grid. */
    function GetBounds(): (r: Rect)
      reads this, components
      ensures Parts() == [] ==> r == Rect(Trunc(x), Trunc(y), 1, 1)
      ensures Parts() != [] ==>
        r.width == (MaxGridX(Parts()) - MinGridX(Parts()) + 1) * GRID_SIZE &&
        r.height == (MaxGridY(Parts()) - MinGridY(Parts()) + 1) * GRID_SIZE &&
        r.x == Trunc(CellCentre(x, MinGridX(Parts()), CentreX() as real) - 16.0) &&
        r.y == Trunc(CellCentre(y, MinGridY(Parts()), CentreY() as real) - 16.0)
    {
      CentreCell();
      var ps, cx, cy := Parts(), CentreX(), CentreY();
      if ps == [] then PyBounds(ps, x, y, cx, cy)
      else PyBoundsShape(ps, x, y, cx, cy); PyBounds(ps, x, y, cx, cy)
    }

    /** apply_thrust: accelerates along the heading when there is thrust and no power deficit. */
    method ApplyThrust(dt: real, trig: Trig)
      modifies this
      ensures Kinematics() == Thrust(old(Kinematics()), Stats(), dt, trig)
      ensures Stats() == old(Stats()) && components == old(components) && target == old(target)
    {
      if totalThrust > 0.0 && powerAvailable >= powerUsed {
        var thrustForce := totalThrust * dt;
        vx := vx + trig.cos(angle) * thrustForce;
        vy := vy + trig.sin(angle) * thrustForce;
      }
    }

    /** rotate: direction -1 or 1 at 3 rad/s per second of input. */
    method Rotate(direction: int, dt: real)
      modifies this
      ensures Kinematics() == Turned(old(Kinematics()), direction, dt)
      ensures Stats() == old(Stats()) && components == old(components) && target == old(target)
    {
      var rotationSpeed := 3.0;
      angularVelocity := angularVelocity + direction as real * rotationSpeed * dt;
    }

    /**
     * _update_ai: unless there is no target or it is closer than 10 units, turn toward it
     * and, when facing it and beyond the standoff distance, thrust. The ghost results say
     * whether it steered, the distance it measured, the normalised heading difference, and
     * how many whole turns the normalisation added.
     */
    method UpdateAI(dt: real, trig: Trig) returns (ghost steered: bool, ghost distance: real, ghost diff: real, ghost turns: int)
      modifies this
      ensures old(target) == null ==> !steered
      ensures old(target) != null ==> Aimed(old(Kinematics()), old(target.x), old(target.y), steered, distance, diff, turns, trig)
      ensures Kinematics() == if steered then Steer(old(Kinematics()), diff, distance, old(Stats()), dt, trig) else old(Kinematics())
      ensures Stats() == old(Stats()) && components == old(components) && target == old(target)
    {
      steered, distance, diff, turns := false, 0.0, 0.0, 0;
      if target == null {
        return;
      }
      var dx := target.x - x;
      var dy := target.y - y;
      var dist := trig.sqrt(SquaredLength(dx, dy));
      distance := dist;
      if dist < 10.0 {
        return;
      }
      var targetAngle := trig.atan2(dy, dx);
      var angleDiff;
      angleDiff, turns := NormalizeAngle(targetAngle - angle);
      var rotationSpeed := 2.0;
      if Abs(angleDiff) > 0.1 {
        angularVelocity := rotationSpeed * (if angleDiff > 0.0 then 1.0 else -1.0);
      } else {
        angularVelocity := 0.0;
      }
      if Abs(angleDiff) < 0.5 {
        var optimalDistance := 300.0;
        if dist > optimalDistance {
          ApplyThrust(dt, trig);
        }
      }
      steered, diff := true, angleDiff;
    }

    /**
     * update: cool the components down, let the AI steer toward the target, then drag, cap
     * the speed, integrate, wrap the heading into [0, 2 pi) and recompute the aggregates.
     */
    method Update(dt: real, target: Ship?, trig: Trig) returns (ghost steered: bool, ghost distance: real, ghost diff: real, ghost turns: int)
      requires Valid()
      modifies this, components
      ensures Valid()
      ensures components == old(components)
      ensures Parts() == Cooled(old(Parts()), dt)
      ensures Stats() == old(Stats())
      ensures this.target == if !isPlayer && target != null then target else old(this.target)
      ensures steered ==> !isPlayer && target != null
      ensures !isPlayer && target != null ==>
        Aimed(old(Kinematics()), old(target.x), old(target.y), steered, distance, diff, turns, trig)
      ensures Kinematics() ==
        TickPy(if steered then Steer(old(Kinematics()), diff, distance, old(Stats()), dt, trig) else old(Kinematics()), dt, trig)
      ensures 0.0 <= angle < TWO_PI
    {
      ghost var ps, motion, totals := Parts(), Kinematics(), Stats();
      CoolComponents(dt);
      CooledKeepsAggregate(ps, dt);
      assert Kinematics() == motion && Stats() == totals && this.target == old(this.target);
      assert target != null ==> target.x == old(target.x) && target.y == old(target.y);
      steered, distance, diff, turns := UpdateMotion(dt, target, trig);
    }

    /** The part of update after the components' own updates: the AI, the motion and the aggregates recomputed. */
    method UpdateMotion(dt: real, target: Ship?, trig: Trig) returns (ghost steered: bool, ghost distance: real, ghost diff: real, ghost turns: int)
      modifies this
      ensures this.target == if !isPlayer && target != null then target else old(this.target)
      ensures steered ==> !isPlayer && target != null
      ensures !isPlayer && target != null ==>
        Aimed(old(Kinematics()), old(target.x), old(target.y), steered, distance, diff, turns, trig)
      ensures Kinematics() ==
        TickPy(if steered then Steer(old(Kinematics()), diff, distance, old(Stats()), dt, trig) else old(Kinematics()), dt, trig)
      ensures Stats() == Aggregate(Parts())
      ensures components == old(components) && Parts() == old(Parts())
    {
      steered, distance, diff, turns := false, 0.0, 0.0, 0;
      if !isPlayer && target != null {
        this.target := target;
        steered, distance, diff, turns := UpdateAI(dt, trig);
      }
      Move(dt, trig);
      RecalculateStats();
    }

    /** The first loop of update: every component takes its own update, in list order. */
    method CoolComponents(dt: real)
      requires Distinct(components)
      modifies components
      ensures Parts() == Cooled(old(Parts()), dt)
    {
      ghost var ps := Parts();
      for i := 0 to |components|
        invariant forall k :: 0 <= k < |components| ==> components[k].Value() == if k < i then AfterUpdate(ps[k], dt) else ps[k]
      {
        components[i].Update(dt);
      }
      PartsOfValues(components, Cooled(ps, dt));
    }

    /** Drag, the speed cap, integration and the heading wrap with Python's `%`. */
    method Move(dt: real, trig: Trig)
      modifies this
      ensures Kinematics() == TickPy(old(Kinematics()), dt, trig)
      ensures Stats() == old(Stats()) && components == old(components) && target == old(target)
    {
      ghost var m := Kinematics();
      vx := vx * DRAG;
      vy := vy * DRAG;
      angularVelocity := angularVelocity * DRAG;
      assert Kinematics() == Dragged(m);
      LimitSpeed(trig);
      Integrate(dt);
      angle := PyMod(angle, TWO_PI);
    }

    /** The speed cap: a ship faster than MAX_VELOCITY is slowed to it, keeping its direction. */
    method LimitSpeed(trig: Trig)
      modifies this
      ensures Kinematics() == Capped(old(Kinematics()), trig)
      ensures Stats() == old(Stats()) && components == old(components) && target == old(target)
    {
      var speed := trig.sqrt(SquaredLength(vx, vy));
      if speed > MAX_VELOCITY {
        vx := (vx / speed) * MAX_VELOCITY;
        vy := (vy / speed) * MAX_VELOCITY;
      }
    }

    /** Position and heading advance by the velocity and the spin over dt. */
    method Integrate(dt: real)
      modifies this
      ensures Kinematics() == Integrated(old(Kinematics()), dt)
      ensures Stats() == old(Stats()) && components == old(components) && target == old(target)
    {
      x := x + vx * dt;
      y := y + vy * dt;
      angle := angle + angularVelocity * dt;
    }

    /**
     * fire_weapons: every weapon that can fire while power generation covers consumption
     * fires and spawns a projectile at its grid position rotated by the heading. The power
     * test sits inside the loop, but nothing in the loop changes the power figures, so a
     * deficit fires nothing at all, exactly as in the C# loop.
     */
    method FireWeapons(trig: Trig) returns (projectiles: seq<PyProjectiles.Projectile>)
      requires Valid()
      modifies components
      ensures Valid()
      ensures FlightsOf(projectiles) ==
        if powerAvailable >= powerUsed then Shots(old(Parts()), x, y, angle, CentreX() as real, CentreY() as real, shipId, trig) else []
      ensures Parts() == if powerAvailable >= powerUsed then Volley(old(Parts())) else old(Parts())
    {
      ghost var ps := Parts();
      projectiles := FireEach(trig);
      SameStatsSameAggregate(ps, Parts());
    }

    /** The loop of fire_weapons, over the components in list order. */
    method FireEach(trig: Trig) returns (projectiles: seq<PyProjectiles.Projectile>)
      requires Distinct(components)
      modifies components
      ensures FlightsOf(projectiles) ==
        if powerAvailable >= powerUsed then Shots(old(Parts()), x, y, angle, CentreX() as real, CentreY() as real, shipId, trig) else []
      ensures Parts() == if powerAvailable >= powerUsed then Volley(old(Parts())) else old(Parts())
    {
      ghost var cs, ps := components, Parts();
      ghost var powered := powerAvailable >= powerUsed;
      ghost var sx, sy, heading, cx, cy := x, y, angle, CentreX() as real, CentreY() as real;
      projectiles := [];
      for i := 0 to |components|
        modifies components
        invariant FlightsOf(projectiles) == if powered then Shots(ps[..i], sx, sy, heading, cx, cy, shipId, trig) else []
        invariant forall k :: 0 <= k < |cs| ==> cs[k].Value() == if k < i && powered && CanFireNow(ps[k]) then AfterFire(ps[k]) else ps[k]
      {
        label Start:
        ShotsSnoc(ps, i, sx, sy, heading, cx, cy, shipId, trig);
        var fired := FireIfReady(components[i], trig);
        FlightsUnchanged@Start(projectiles);
        FlightsAppend(projectiles, fired);
        projectiles := projectiles + fired;
      }
      assert ps[..|ps|] == ps;
      PartsOfValues(cs, if powered then Volley(ps) else ps);
    }

    /**
     * One pass of fire_weapons' loop: the component fires and spawns its projectile if it
     * can fire and the ship has the power.
     */
    method FireIfReady(comp: PyComponents.Component, trig: Trig) returns (fired: seq<PyProjectiles.Projectile>)
      modifies comp
      ensures var ready := CanFireNow(old(comp.Value())) && powerAvailable >= powerUsed;
        comp.Value() == (if ready then AfterFire(old(comp.Value())) else old(comp.Value())) &&
        FlightsOf(fired) == if ready then [ShotFor(old(comp.Value()), x, y, angle, CentreX() as real, CentreY() as real, shipId, trig)] else []
      ensures |fired| <= 1 && forall k :: 0 <= k < |fired| ==> fresh(fired[k])
    {
      fired := [];
      if comp.CanFire() && powerAvailable >= powerUsed {
        ghost var before := comp.Value();
        comp.Fire();
        ShotAfterFire(before, x, y, angle, CentreX() as real, CentreY() as real, trig);
        PySpawnAgrees(comp.Value(), x, y, angle, CentreX(), CentreY(), trig);
        var (spawnX, spawnY) := PySpawn(comp.Value(), x, y, angle, CentreX(), CentreY(), trig);
        var projType := if comp.kind == WEAPON_LASER then LASER else CANNON;
        var damage := if projType == LASER then 10 else 25;
        var speed := if projType == LASER then 500.0 else 350.0;
        var projectile := new PyProjectiles.Projectile(spawnX, spawnY, angle, speed, damage, projType, shipId, trig);
        fired := [projectile];
      }
    }

    /**
     * take_damage: the hit is mapped to a grid cell; the first component in that cell takes
     * the damage and is removed from the list when its health reaches 0; the aggregates are
     * recomputed in every case.
     */
    method TakeDamage(damage: int, hitX: real, hitY: real, trig: Trig)
      requires Valid()
      modifies this, components
      ensures Valid()
      ensures var cell := HitCell(x, y, angle, hitX, hitY, CentreX() as real, CentreY() as real, trig);
        Parts() == RouteDamage(old(Parts()), cell.0, cell.1, damage)
      ensures Kinematics() == old(Kinematics()) && target == old(target)
    {
      var (gridX, gridY) := HitCell(x, y, angle, hitX, hitY, CentreX() as real, CentreY() as real, trig);
      DamageCell(gridX, gridY, damage);
      RecalculateStats();
    }

    /** `components.remove(comp)`, for the component at index i: the first occurrence goes, and with it its value. */
    method RemoveDestroyed(comp: PyComponents.Component, ghost i: int)
      requires Distinct(components) && 0 <= i < |components| && components[i] == comp
      modifies this
      ensures Distinct(components)
      ensures components == RemoveFirst(old(components), comp)
      ensures Parts() == old(Parts())[..i] + old(Parts())[i + 1..]
      ensures Kinematics() == old(Kinematics()) && target == old(target)
    {
      ghost var cs := components;
      assert comp !in cs[..i];
      DistinctWithout(cs, i);
      RemoveFirstAt(cs, comp, i);
      components := RemoveFirst(components, comp);
      PartsOfWithout(cs, i);
    }

    /** When only the component at index i has changed, the values differ at index i only. */
    twostate lemma OneChanged(i: int)
      requires unchanged(this) && 0 <= i < |components| && Distinct(components)
      requires forall k :: 0 <= k < |components| && k != i ==> unchanged(components[k])
      ensures Parts() == old(Parts())[i := components[i].Value()]
    {
    }

    /** The component half of take_damage, once the hit is mapped to the cell (gridX, gridY). */
    method DamageCell(gridX: int, gridY: int, damage: int)
      requires Distinct(components)
      modifies this, components
      ensures Distinct(components)
      ensures Parts() == RouteDamage(old(Parts()), gridX, gridY, damage)
      ensures Kinematics() == old(Kinematics()) && target == old(target)
    {
      ghost var ps := Parts();
      var comp := GetComponentAt(gridX, gridY);
      if comp != null {
        ghost var cs := components;
        ghost var i := FindAt(ps, gridX, gridY).index;
        var destroyed := comp.TakeDamage(damage);
        OneChanged(i);
        assert AfterDamage(ps[i], damage) == (cs[i].Value(), destroyed);
        if destroyed {
          RemoveDestroyed(comp, i);
        } else {
          assert Parts() == ps[i := cs[i].Value()];
        }
      }
    }
  }
}
