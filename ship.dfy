/**
 * The mutable objects of the C# simulation (Ship.cs, Crew.cs): a ship that owns a list of
 * components and a crew manager, the crew manager that owns the crew members, and the
 * crew members themselves. Every method is proved against the value-level functions of
 * ShipSpec and CrewSpec.
 */
module Ships {
  import opened Config
  import opened Geometry
  import opened Components
  import opened Projectiles
  import opened ShipSpec
  import opened CrewSpec
  import opened Lists

  // ---------------------------------------------------------------- lists of objects as values

  /** The values of a list of components, in list order. */
  function PartsOf(cs: seq<Component>): (ps: seq<Part>)
    reads cs
    ensures |ps| == |cs|
    ensures forall i :: 0 <= i < |cs| ==> ps[i] == cs[i].Value()
  {
    seq(|cs|, i requires 0 <= i < |cs| reads cs => cs[i].Value())
  }

  /** The values of a list of projectiles, in list order. */
  function FlightsOf(fs: seq<Projectile>): (r: seq<Flight>)
    reads fs
    ensures |r| == |fs|
    ensures forall i :: 0 <= i < |fs| ==> r[i] == fs[i].Value()
  {
    seq(|fs|, i requires 0 <= i < |fs| reads fs => fs[i].Value())
  }

  /** The values of a list of crew members, in list order. */
  function MembersOf(ms: seq<CrewMember>): (r: seq<Member>)
    reads ms
    ensures |r| == |ms|
    ensures forall i :: 0 <= i < |ms| ==> r[i] == ms[i].Value()
  {
    seq(|ms|, i requires 0 <= i < |ms| reads ms => ms[i].Value())
  }

  /** Cutting one component out of the list cuts its value out of the values. */
  lemma PartsOfWithout(cs: seq<Component>, i: nat)
    requires i < |cs|
    ensures PartsOf(cs[..i] + cs[i + 1..]) == PartsOf(cs)[..i] + PartsOf(cs)[i + 1..]
  {
  }

  /** A crew manager none of whose objects changed keeps its members and its invariant. */
  twostate lemma CrewUnchanged(m: CrewManager)
    requires unchanged(m) && forall k :: 0 <= k < |m.crew| ==> unchanged(m.crew[k])
    ensures m.Members() == old(m.Members()) && (m.Valid() <==> old(m.Valid()))
  {
  }

  /** Components none of which changed keep their values. */
  twostate lemma PartsUnchanged(cs: seq<Component>)
    requires forall k :: 0 <= k < |cs| ==> unchanged(cs[k])
    ensures PartsOf(cs) == old(PartsOf(cs))
  {
  }

  /** Projectiles none of which changed keep their values. */
  twostate lemma FlightsUnchanged(fs: seq<Projectile>)
    requires forall k :: 0 <= k < |fs| ==> unchanged(fs[k])
    ensures FlightsOf(fs) == old(FlightsOf(fs))
  {
  }

  /** A list of components whose objects hold the given values has exactly those values. */
  lemma PartsOfValues(cs: seq<Component>, vs: seq<Part>)
    requires |cs| == |vs| && forall k :: 0 <= k < |cs| ==> cs[k].Value() == vs[k]
    ensures PartsOf(cs) == vs
  {
  }

  /** A list of crew members whose objects hold the given values has exactly those values. */
  lemma MembersOfValues(ms: seq<CrewMember>, vs: seq<Member>)
    requires |ms| == |vs| && forall k :: 0 <= k < |ms| ==> ms[k].Value() == vs[k]
    ensures MembersOf(ms) == vs
  {
  }

  /** Appending projectiles appends their values. */
  lemma FlightsAppend(fs: seq<Projectile>, gs: seq<Projectile>)
    ensures FlightsOf(fs + gs) == FlightsOf(fs) + FlightsOf(gs)
  {
  }

  /** List.RemoveAll on the component list: the components not at (gx, gy), in order. */
  function Keep(cs: seq<Component>, gx: int, gy: int): (r: seq<Component>)
    ensures forall c :: c in r ==> c in cs && !(c.gridX == gx && c.gridY == gy)
    decreases |cs|
  {
    if cs == [] then []
    else
      var last := cs[|cs| - 1];
      assert cs == cs[..|cs| - 1] + [last];
      var rest := Keep(cs[..|cs| - 1], gx, gy);
      if last.gridX == gx && last.gridY == gy then rest else rest + [last]
  }

  /** Removing the objects at a cell removes exactly the values at that cell. */
  lemma {:induction false} KeepParts(cs: seq<Component>, gx: int, gy: int)
    ensures PartsOf(Keep(cs, gx, gy)) == RemoveAt(PartsOf(cs), gx, gy)
    decreases |cs|
  {
    if cs != [] {
      var front := cs[..|cs| - 1];
      KeepParts(front, gx, gy);
      assert PartsOf(cs)[..|cs| - 1] == PartsOf(front);
    }
  }

  lemma {:induction false} KeepDistinct(cs: seq<Component>, gx: int, gy: int)
    requires Distinct(cs)
    ensures Distinct(Keep(cs, gx, gy))
    decreases |cs|
  {
    if cs != [] {
      var front := cs[..|cs| - 1];
      KeepDistinct(front, gx, gy);
      assert cs[|cs| - 1] !in front;
    }
  }


  // ---------------------------------------------------------------- crew

  /** One crew member, moved and re-assigned in place. */
  class CrewMember {
    var id: int
    var x: real
    var y: real
    var assignedTo: Component?
    var target: Component?
    var state: CrewState
    var work: real

    function Value(): Member
      reads this
    {
      Member(id, x, y, assignedTo, target, state, work)
    }

    constructor (id: int, x: real, y: real)
      ensures Value() == Recruit(id, x, y)
    {
      this.id := id;
      this.x := x;
      this.y := y;
      assignedTo := null;
      target := null;
      state := Idle;
      work := 0.0;
    }

    method Update(dt: real, ship: Ship, trig: Trig)
      modifies this
      ensures Value() == Step(old(Value()), dt, ship.x, ship.y, ship.gridWidth, ship.gridHeight, trig)
    {
      if target != null && assignedTo != target {
        MoveToComponent(dt, ship, target, trig);
      } else if assignedTo != null {
        state := Working;
        work := work + dt;
      } else {
        state := Idle;
      }
    }

    method MoveToComponent(dt: real, ship: Ship, target: Component, trig: Trig)
      modifies this
      ensures Value() == Walk(old(Value()), target, dt, ship.x, ship.y, ship.gridWidth, ship.gridHeight, trig)
    {
      state := Walking;
      var targetX := ship.x + (target.gridX as real - ship.gridWidth as real / 2.0) * GRID_SIZE as real;
      var targetY := ship.y + (target.gridY as real - ship.gridHeight as real / 2.0) * GRID_SIZE as real;
      var dx := targetX - x;
      var dy := targetY - y;
      var distance := trig.sqrt(SquaredLength(dx, dy));
      if distance < ARRIVAL_RADIUS {
        x := targetX;
        y := targetY;
        assignedTo := target;
        this.target := null;
        state := Working;
      } else {
        var speed := MOVE_SPEED_ROOM;
        var stepX := dx / distance * speed * dt;
        var stepY := dy / distance * speed * dt;
        x := x + stepX;
        y := y + stepY;
      }
    }

    method AssignTo(component: Component)
      modifies this
      ensures Value() == CrewSpec.AssignTo(old(Value()), component)
    {
      target := component;
      work := 0.0;
    }
  }

  /** The crew of one ship, with the ids it has handed out. */
  class CrewManager {
    var crew: seq<CrewMember>
    var nextCrewId: int
    const ship: Ship

    function Members(): seq<Member>
      reads this, crew
    {
      MembersOf(crew)
    }

    /** No member is listed twice, and ids are unique and below the next id. */
    predicate Valid()
      reads this, crew
    {
      Distinct(crew) && UniqueIds(Members(), nextCrewId)
    }

    constructor (ship: Ship)
      ensures this.ship == ship && crew == [] && nextCrewId == 0
      ensures Members() == [] && Valid()
    {
      this.ship := ship;
      crew := [];
      nextCrewId := 0;
    }

    /** Adds `count` new idle members at the ship's position, with the next ids in order. */
    method AddCrew(count: int, shipX: real, shipY: real)
      requires Valid()
      modifies this
      ensures Valid()
      ensures Members() == old(Members()) + Recruits(old(nextCrewId), count, shipX, shipY)
      ensures nextCrewId == old(nextCrewId) + Max(0, count)
      ensures crew[..|old(crew)|] == old(crew)
    {
      var i := 0;
      while i < count
        invariant 0 <= i <= Max(0, count)
        invariant nextCrewId == old(nextCrewId) + i
        invariant |crew| == |old(crew)| + i && crew[..|old(crew)|] == old(crew)
        invariant forall k :: |old(crew)| <= k < |crew| ==> fresh(crew[k])
        invariant Distinct(crew)
        invariant Members() == old(Members()) + Recruits(old(nextCrewId), i, shipX, shipY)
      {
        var member := new CrewMember(nextCrewId, shipX, shipY);
        nextCrewId := nextCrewId + 1;
        crew := crew + [member];
        i := i + 1;
      }
      assert Recruits(old(nextCrewId), i, shipX, shipY) == Recruits(old(nextCrewId), count, shipX, shipY);
      RecruitsKeepIdsUnique(old(Members()), old(nextCrewId), count, shipX, shipY);
    }

    /** Every member takes one Update, then idle members are sent to the stations that need them. */
    method Update(dt: real, trig: Trig)
      requires Valid()
      modifies crew
      ensures Valid()
      ensures Members() == AssignIdle(StepAll(old(Members()), dt, ship.x, ship.y, ship.gridWidth, ship.gridHeight, trig), ship.components)
    {
      ghost var ms := Members();
      StepCrew(dt, trig);
      SameIdsKeepUnique(ms, Members(), nextCrewId);
      AssignIdleCrew();
    }

    /** The manager's loop: every member takes one Update, in crew order. */
    method StepCrew(dt: real, trig: Trig)
      requires Distinct(crew)
      modifies crew
      ensures Members() == StepAll(old(Members()), dt, ship.x, ship.y, ship.gridWidth, ship.gridHeight, trig)
    {
      ghost var ms := Members();
      for i := 0 to |crew|
        invariant forall k :: 0 <= k < |crew| ==>
          crew[k].Value() == if k < i then Step(ms[k], dt, ship.x, ship.y, ship.gridWidth, ship.gridHeight, trig) else ms[k]
      {
        crew[i].Update(dt, ship, trig);
      }
      MembersOfValues(crew, StepAll(ms, dt, ship.x, ship.y, ship.gridWidth, ship.gridHeight, trig));
    }

    /**
     * Walks the ship's components in order and sends the next idle, unassigned member to each
     * station whose arrived crew is short of what it requires.
     */
    method AssignIdleCrew()
      requires Valid()
      modifies crew
      ensures Valid()
      ensures Members() == AssignIdle(old(Members()), ship.components)
    {
      ghost var ms := Members();
      var idle := IdleIndices(Members());
      var comps := ship.components;
      assert Distinct(crew);
      var used := 0;
      for j := 0 to |comps|
        invariant used == Min(|idle|, |Needy(ms, comps[..j])|)
        invariant Members() == Dispatch(ms, idle[..used], Needy(ms, comps[..j])[..used])
      {
        AssignStep(ms, comps, j, used);
        used := ServeStation(comps[j], idle, used);
      }
      assert comps[..|comps|] == comps;
      AssignIdleEffect(ms, comps);
      SameIdsKeepUnique(ms, Members(), nextCrewId);
    }

    /**
     * One pass of AssignIdleCrew's loop: a station whose arrived crew is short of what it
     * requires takes the next available member, while any are left.
     */
    method ServeStation(component: Component, idle: seq<nat>, used: nat) returns (next: nat)
      requires Distinct(crew) && used <= |idle|
      requires forall k :: 0 <= k < |idle| ==> idle[k] < |crew|
      modifies crew
      ensures next == if Understaffed(old(Members()), component) && used < |idle| then used + 1 else used
      ensures next == used + 1 ==> Members() == old(Members())[idle[used] := AssignTo(old(Members())[idle[used]], component)]
      ensures next == used ==> Members() == old(Members())
    {
      next := used;
      if component.kind == POWER || component.kind == WEAPON_LASER ||
         component.kind == WEAPON_CANNON || component.kind == ENGINE {
        var assignedCrew := ArrivedCount(Members(), component);
        var requiredCrew := if component.kind == POWER then 2 else 1;
        if assignedCrew < requiredCrew && used < |idle| {
          var member := crew[idle[used]];
          member.AssignTo(component);
          next := used + 1;
        }
      }
    }

    function GetTotalCrew(): (n: nat)
      reads this
      ensures n == |crew|
    {
      |crew|
    }

    function GetIdleCrew(): (n: nat)
      reads this, crew
      ensures n <= |crew|
      ensures n == 0 <==> forall i :: 0 <= i < |crew| ==> crew[i].state != Idle
    {
      CountState(Members(), Idle)
    }

    function GetWorkingCrew(): (n: nat)
      reads this, crew
      ensures n <= |crew| - GetIdleCrew()
    {
      StatesPartitionCrew(Members());
      CountState(Members(), Working)
    }
  }

  // ---------------------------------------------------------------- ship

  /** A ship: its motion, its component list with the aggregates cached over it, its crew and its AI target. */
  class Ship {
    var x: real
    var y: real
    const shipId: int
    const isPlayer: bool
    var angle: real
    var vx: real
    var vy: real
    var angularVelocity: real
    var components: seq<Component>
    const gridWidth: int := 10
    const gridHeight: int := 10
    var totalHealth: int
    var maxHealth: int
    var powerAvailable: int
    var powerUsed: int
    var totalThrust: real
    var crewManager: CrewManager?
    var target: Ship?

    function Parts(): seq<Part>
      reads this, components
    {
      PartsOf(components)
    }

    function Stats(): Totals
      reads this
    {
      Totals(totalHealth, maxHealth, powerAvailable, powerUsed, totalThrust)
    }

    function Kinematics(): Motion
      reads this
    {
      Motion(x, y, angle, vx, vy, angularVelocity)
    }

    /** The grid centre, in cells: GridWidth / 2f and GridHeight / 2f. */
    function CentreX(): real {
      gridWidth as real / 2.0
    }

    function CentreY(): real {
      gridHeight as real / 2.0
    }

    /**
     * The ship's invariant: it has a crew manager that belongs to it and is itself valid, no
     * component object is listed twice, and the cached aggregates are those of the components.
     */
    predicate Valid()
      reads this, components, crewManager, if crewManager == null then [] else crewManager.crew
    {
      CrewReady() && Distinct(components) && Stats() == Aggregate(Parts())
    }

    /** The crew half of the invariant: a valid crew manager that belongs to this ship. */
    predicate CrewReady()
      reads this, crewManager, if crewManager == null then [] else crewManager.crew
    {
      crewManager != null && crewManager.ship == this && crewManager.Valid()
    }

    constructor (x: real, y: real, shipId: int, isPlayer: bool)
      ensures Valid()
      ensures Kinematics() == Motion(x, y, 0.0, 0.0, 0.0, 0.0)
      ensures this.shipId == shipId && this.isPlayer == isPlayer && target == null
      ensures Parts() == if isPlayer then PlayerLayout() else EnemyLayout()
      ensures fresh(crewManager)
      ensures crewManager.Members() == Recruits(0, if isPlayer then 5 else 3, x, y)
      ensures crewManager.nextCrewId == if isPlayer then 5 else 3
    {
      this.x := x;
      this.y := y;
      this.shipId := shipId;
      this.isPlayer := isPlayer;
      angle := 0.0;
      vx := 0.0;
      vy := 0.0;
      angularVelocity := 0.0;
      components := [];
      totalHealth, maxHealth, powerAvailable, powerUsed, totalThrust := 0, 0, 0, 0, 0.0;
      crewManager := null;
      target := null;
      new;
      if isPlayer {
        CreatePlayerShip();
      } else {
        CreateEnemyShip();
      }
      RecalculateStats();
      InitializeCrew(if isPlayer then 5 else 3);
    }

    /** The constructor's last step: a new crew manager for this ship, holding `count` members at the ship's position. */
    method InitializeCrew(count: int)
      requires Distinct(components) && Stats() == Aggregate(Parts())
      modifies this
      ensures Valid()
      ensures fresh(crewManager)
      ensures crewManager.Members() == Recruits(0, count, x, y)
      ensures crewManager.nextCrewId == Max(0, count)
      ensures components == old(components) && Parts() == old(Parts())
      ensures Kinematics() == old(Kinematics()) && Stats() == old(Stats()) && target == old(target)
    {
      var manager := new CrewManager(this);
      crewManager := manager;
      manager.AddCrew(count, x, y);
    }

    /** Components.Add(new Component(kind, gx, gy)). */
    method AddNew(kind: string, gx: int, gy: int)
      requires Distinct(components)
      modifies this
      ensures |components| == |old(components)| + 1 && components[..|old(components)|] == old(components)
      ensures fresh(components[|old(components)|])
      ensures Distinct(components)
      ensures Parts() == old(Parts()) + [Initial(kind, gx, gy)]
      ensures Kinematics() == old(Kinematics()) && Stats() == old(Stats())
      ensures crewManager == old(crewManager) && target == old(target)
    {
      var c := new Component(kind, gx, gy);
      components := components + [c];
    }

    /** Components.Add(new Component(kind, gridX, gridY)) for every entry of a table, in order. */
    method AddCells(cells: seq<Cell>)
      requires Distinct(components)
      modifies this
      ensures Distinct(components)
      ensures Parts() == old(Parts()) + Build(cells)
      ensures Kinematics() == old(Kinematics()) && Stats() == old(Stats())
      ensures crewManager == old(crewManager) && target == old(target)
    {
      for i := 0 to |cells|
        invariant Distinct(components)
        invariant Parts() == old(Parts()) + Build(cells[..i])
        invariant Kinematics() == old(Kinematics()) && Stats() == old(Stats())
        invariant crewManager == old(crewManager) && target == old(target)
      {
        AddNew(cells[i].kind, cells[i].gridX, cells[i].gridY);
        BuildSnoc(cells, i);
      }
      assert cells[..|cells|] == cells;
    }

    method CreatePlayerShip()
      requires Distinct(components)
      modifies this
      ensures Distinct(components)
      ensures Parts() == old(Parts()) + PlayerLayout()
      ensures Kinematics() == old(Kinematics()) && Stats() == old(Stats())
      ensures crewManager == old(crewManager) && target == old(target)
    {
      AddCells(PLAYER_CELLS);
      TablesBuildLayouts();
    }

    method CreateEnemyShip()
      requires Distinct(components)
      modifies this
      ensures Distinct(components)
      ensures Parts() == old(Parts()) + EnemyLayout()
      ensures Kinematics() == old(Kinematics()) && Stats() == old(Stats())
      ensures crewManager == old(crewManager) && target == old(target)
    {
      AddCells(ENEMY_CELLS);
      TablesBuildLayouts();
    }

    /** Recomputes the cached aggregates from the components. */
    method RecalculateStats()
      modifies this`totalHealth, this`maxHealth, this`powerAvailable, this`powerUsed, this`totalThrust
      ensures Stats() == Aggregate(Parts())
      ensures components == old(components) && Parts() == old(Parts()) && Kinematics() == old(Kinematics())
      ensures crewManager == old(crewManager) && target == old(target)
    {
      ghost var ps := Parts();
      var t := SumStats(components);
      totalHealth, maxHealth, powerAvailable, powerUsed, totalThrust := t.health, t.maxHealth, t.powerAvailable, t.powerUsed, t.thrust;
      assert Parts() == ps && Stats() == t;
    }

    /** Sums health, maximum health, power generated, power used and thrust over the components, in order. */
    method SumStats(cs: seq<Component>) returns (t: Totals)
      ensures t == Aggregate(PartsOf(cs))
    {
      ghost var ps := PartsOf(cs);
      var health, maxH, available, used, thrust := 0, 0, 0, 0, 0.0;
      var i := 0;
      while i < |cs|
        invariant 0 <= i <= |cs|
        invariant Totals(health, maxH, available, used, thrust) == Aggregate(ps[..i])
      {
        var s := cs[i].stats;
        assert s == ps[i].stats;
        AggregateStep(ps, i);
        health := health + s.health;
        maxH := maxH + s.maxHealth;
        available := available + s.powerGeneration;
        used := used + s.powerConsumption;
        thrust := thrust + s.thrust;
        i := i + 1;
      }
      assert ps[..i] == ps;
      t := Totals(health, maxH, available, used, thrust);
    }

    method AddComponent(component: Component)
      requires Valid() && component !in components
      modifies this
      ensures Valid()
      ensures components == old(components) + [component]
      ensures Parts() == old(Parts()) + [component.Value()]
      ensures Kinematics() == old(Kinematics()) && crewManager == old(crewManager) && target == old(target)
    {
      ghost var manager := crewManager;
      components := components + [component];
      RecalculateStats();
      CrewUnchanged(manager);
    }

    method RemoveComponent(gridX: int, gridY: int)
      requires Valid()
      modifies this
      ensures Valid()
      ensures components == Keep(old(components), gridX, gridY)
      ensures Parts() == RemoveAt(old(Parts()), gridX, gridY)
      ensures Kinematics() == old(Kinematics()) && crewManager == old(crewManager) && target == old(target)
    {
      KeepParts(components, gridX, gridY);
      KeepDistinct(components, gridX, gridY);
      ghost var manager := crewManager;
      components := Keep(components, gridX, gridY);
      RecalculateStats();
      CrewUnchanged(manager);
    }

    /** The first component in list order at the cell, or null when the cell is empty. */
    function GetComponentAt(gridX: int, gridY: int): (c: Component?)
      reads this, components
      ensures c == null <==> forall i :: 0 <= i < |components| ==> !(components[i].gridX == gridX && components[i].gridY == gridY)
      ensures c != null ==>
        exists i :: 0 <= i < |components| && components[i] == c && c.gridX == gridX && c.gridY == gridY &&
          forall j :: 0 <= j < i ==> !(components[j].gridX == gridX && components[j].gridY == gridY)
      ensures FindAt(Parts(), gridX, gridY).Found? ==> c == components[FindAt(Parts(), gridX, gridY).index]
    {
      match FindAt(Parts(), gridX, gridY)
      case Missing => null
      case Found(i) => components[i]
    }

    /** The ship is destroyed when no core is left. */
    predicate IsDestroyed()
      reads this, components
      ensures IsDestroyed() <==> !HasCore(Parts())
    {
      !exists i :: 0 <= i < |components| && components[i].kind == CORE
    }

    /** The world-space box of the occupied part of the grid (see ShipSpec.Bounds). */
    function GetBounds(): (r: Rect)
      reads this, components
      ensures Parts() == [] ==> r == Rect(Trunc(x), Trunc(y), 1, 1)
      ensures Parts() != [] ==>
        r.width == (MaxGridX(Parts()) - MinGridX(Parts()) + 1) * GRID_SIZE &&
        r.height == (MaxGridY(Parts()) - MinGridY(Parts()) + 1) * GRID_SIZE &&
        r.x == Trunc(CellCentre(x, MinGridX(Parts()), CentreX()) - 16.0) &&
        r.y == Trunc(CellCentre(y, MinGridY(Parts()), CentreY()) - 16.0)
    {
      var ps := Parts();
      if ps == [] then Bounds(ps, x, y, CentreX(), CentreY())
      else BoundsShape(ps, x, y, CentreX(), CentreY()); Bounds(ps, x, y, CentreX(), CentreY())
    }

    /** Accelerates along the heading when there is thrust and no power deficit. */
    method ApplyThrust(dt: real, trig: Trig)
      modifies this
      ensures Kinematics() == Thrust(old(Kinematics()), Stats(), dt, trig)
      ensures Stats() == old(Stats()) && components == old(components)
      ensures crewManager == old(crewManager) && target == old(target)
    {
      if totalThrust > 0.0 && powerAvailable >= powerUsed {
        var thrustForce := totalThrust * dt;
        vx := vx + trig.cos(angle) * thrustForce;
        vy := vy + trig.sin(angle) * thrustForce;
      }
    }

    /** The player's turn input: direction -1, 0 or 1 at 3 rad/s per second of input. */
    method Rotate(direction: int, dt: real)
      modifies this
      ensures Kinematics() == Turned(old(Kinematics()), direction, dt)
      ensures Stats() == old(Stats()) && components == old(components)
      ensures crewManager == old(crewManager) && target == old(target)
    {
      var rotationSpeed := 3.0;
      angularVelocity := angularVelocity + direction as real * rotationSpeed * dt;
    }

    /**
     * The AI: unless there is no target or it is closer than 10 units, turn toward it and,
     * when facing it and beyond the standoff distance, thrust. The ghost results say whether
     * it steered, the distance it measured, the normalised heading difference, and how many
     * whole turns the normalisation added.
     */
    method UpdateAI(dt: real, trig: Trig) returns (ghost steered: bool, ghost distance: real, ghost diff: real, ghost turns: int)
      modifies this
      ensures old(target) == null ==> !steered
      ensures old(target) != null ==> Aimed(old(Kinematics()), old(target.x), old(target.y), steered, distance, diff, turns, trig)
      ensures Kinematics() == if steered then Steer(old(Kinematics()), diff, distance, old(Stats()), dt, trig) else old(Kinematics())
      ensures Stats() == old(Stats()) && components == old(components)
      ensures crewManager == old(crewManager) && target == old(target)
    {
      steered, distance, diff, turns := false, 0.0, 0.0, 0;
      if target == null {
        return;
      }
      var dx := target.x - x;
      var dy := target.y - y;
      var dist := trig.sqrt(SquaredLength(dx, dy));
      distance := dist;
      if dist < 10.0 {
        return;
      }
      var targetAngle := trig.atan2(dy, dx);
      var angleDiff;
      angleDiff, turns := NormalizeAngle(targetAngle - angle);
      var rotationSpeed := 2.0;
      if Abs(angleDiff) > 0.1 {
        angularVelocity := rotationSpeed * (if angleDiff > 0.0 then 1.0 else -1.0);
      } else {
        angularVelocity := 0.0;
      }
      if Abs(angleDiff) < 0.5 {
        var optimalDistance := 300.0;
        if dist > optimalDistance {
          ApplyThrust(dt, trig);
        }
      }
      steered, diff := true, angleDiff;
    }

    /**
     * One frame: cool the components down, update the crew, let the AI steer toward the
     * target, then drag, cap the speed, integrate, wrap the heading and recompute the
     * aggregates.
     */
    method Update(dt: real, target: Ship?, trig: Trig) returns (ghost steered: bool, ghost distance: real, ghost diff: real, ghost turns: int)
      requires Valid()
      modifies this, components, crewManager.crew
      ensures Valid()
      ensures components == old(components) && crewManager == old(crewManager) && crewManager.crew == old(crewManager.crew)
      ensures Parts() == Cooled(old(Parts()), dt)
      ensures Stats() == old(Stats())
      ensures crewManager.Members() ==
        AssignIdle(StepAll(old(crewManager.Members()), dt, old(x), old(y), gridWidth, gridHeight, trig), components)
      ensures this.target == if !isPlayer && target != null then target else old(this.target)
      ensures steered ==> !isPlayer && target != null
      ensures !isPlayer && target != null ==>
        Aimed(old(Kinematics()), old(target.x), old(target.y), steered, distance, diff, turns, trig)
      ensures Kinematics() ==
        TickCs(if steered then Steer(old(Kinematics()), diff, distance, old(Stats()), dt, trig) else old(Kinematics()), dt, trig)
    {
      ghost var manager, motion, totals := crewManager, Kinematics(), Stats();
      UpdateSystems(dt, trig);
      assert Kinematics() == motion && Stats() == totals && this.target == old(this.target);
      assert target != null ==> target.x == old(target.x) && target.y == old(target.y);
      label Systems:
      steered, distance, diff, turns := UpdateMotion(dt, target, trig);
      CrewUnchanged@Systems(manager);
    }

    /** The first half of a frame: every component's Update, then the crew's. */
    method UpdateSystems(dt: real, trig: Trig)
      requires Valid()
      modifies components, crewManager.crew
      ensures Valid()
      ensures Parts() == Cooled(old(Parts()), dt)
      ensures crewManager.Members() ==
        AssignIdle(StepAll(old(crewManager.Members()), dt, x, y, gridWidth, gridHeight, trig), components)
    {
      ghost var ps, manager := Parts(), crewManager;
      label Start:
      CoolComponents(dt);
      CrewUnchanged@Start(manager);
      CooledKeepsAggregate(ps, dt);
      label Cooled:
      crewManager.Update(dt, trig);
      PartsUnchanged@Cooled(components);
    }

    /** The second half of a frame: the AI's steering, the motion, and the aggregates recomputed. */
    method UpdateMotion(dt: real, target: Ship?, trig: Trig) returns (ghost steered: bool, ghost distance: real, ghost diff: real, ghost turns: int)
      modifies this
      ensures this.target == if !isPlayer && target != null then target else old(this.target)
      ensures steered ==> !isPlayer && target != null
      ensures !isPlayer && target != null ==>
        Aimed(old(Kinematics()), old(target.x), old(target.y), steered, distance, diff, turns, trig)
      ensures Kinematics() ==
        TickCs(if steered then Steer(old(Kinematics()), diff, distance, old(Stats()), dt, trig) else old(Kinematics()), dt, trig)
      ensures Stats() == Aggregate(Parts())
      ensures components == old(components) && Parts() == old(Parts()) && crewManager == old(crewManager)
    {
      steered, distance, diff, turns := false, 0.0, 0.0, 0;
      if !isPlayer && target != null {
        this.target := target;
        steered, distance, diff, turns := UpdateAI(dt, trig);
      }
      Move(dt, trig);
      RecalculateStats();
    }

    /** Every component takes its own Update, in list order. */
    method CoolComponents(dt: real)
      requires Distinct(components)
      modifies components
      ensures Parts() == Cooled(old(Parts()), dt)
    {
      ghost var ps := Parts();
      for i := 0 to |components|
        invariant forall k :: 0 <= k < |components| ==> components[k].Value() == if k < i then AfterUpdate(ps[k], dt) else ps[k]
      {
        components[i].Update(dt);
      }
      PartsOfValues(components, Cooled(ps, dt));
    }

    /** Drag, the speed cap, integration and the heading wrap. */
    method Move(dt: real, trig: Trig)
      modifies this
      ensures Kinematics() == TickCs(old(Kinematics()), dt, trig)
      ensures Stats() == old(Stats()) && components == old(components)
      ensures crewManager == old(crewManager) && target == old(target)
    {
      ghost var m := Kinematics();
      vx := vx * DRAG;
      vy := vy * DRAG;
      angularVelocity := angularVelocity * DRAG;
      assert Kinematics() == Dragged(m);
      LimitSpeed(trig);
      Integrate(dt);
      angle := CsRem(angle, TWO_PI);
    }

    /** The speed cap: a ship faster than MAX_VELOCITY is slowed to it, keeping its direction. */
    method LimitSpeed(trig: Trig)
      modifies this
      ensures Kinematics() == Capped(old(Kinematics()), trig)
      ensures Stats() == old(Stats()) && components == old(components)
      ensures crewManager == old(crewManager) && target == old(target)
    {
      var speed := trig.sqrt(SquaredLength(vx, vy));
      if speed > MAX_VELOCITY {
        vx := (vx / speed) * MAX_VELOCITY;
        vy := (vy / speed) * MAX_VELOCITY;
      }
    }

    /** Position and heading advance by the velocity and the spin over dt. */
    method Integrate(dt: real)
      modifies this
      ensures Kinematics() == Integrated(old(Kinematics()), dt)
      ensures Stats() == old(Stats()) && components == old(components)
      ensures crewManager == old(crewManager) && target == old(target)
    {
      x := x + vx * dt;
      y := y + vy * dt;
      angle := angle + angularVelocity * dt;
    }

    /**
     * Fires every weapon that can fire while power generation covers consumption, each
     * spawning a projectile at its grid position rotated by the heading.
     */
    method FireWeapons(trig: Trig) returns (projectiles: seq<Projectile>)
      requires Valid()
      modifies components
      ensures Valid()
      ensures FlightsOf(projectiles) ==
        if powerAvailable >= powerUsed then Shots(old(Parts()), x, y, angle, CentreX(), CentreY(), shipId, trig) else []
      ensures Parts() == if powerAvailable >= powerUsed then Volley(old(Parts())) else old(Parts())
    {
      ghost var ps := Parts();
      projectiles := FireEach(trig);
      SameStatsSameAggregate(ps, Parts());
    }

    /** FireWeapons' loop over the components, in list order. */
    method FireEach(trig: Trig) returns (projectiles: seq<Projectile>)
      requires Distinct(components)
      modifies components
      ensures FlightsOf(projectiles) ==
        if powerAvailable >= powerUsed then Shots(old(Parts()), x, y, angle, CentreX(), CentreY(), shipId, trig) else []
      ensures Parts() == if powerAvailable >= powerUsed then Volley(old(Parts())) else old(Parts())
    {
      ghost var cs, ps := components, Parts();
      ghost var powered := powerAvailable >= powerUsed;
      ghost var sx, sy, heading, cx, cy := x, y, angle, CentreX(), CentreY();
      projectiles := [];
      for i := 0 to |components|
        modifies components
        invariant FlightsOf(projectiles) == if powered then Shots(ps[..i], sx, sy, heading, cx, cy, shipId, trig) else []
        invariant forall k :: 0 <= k < |cs| ==> cs[k].Value() == if k < i && powered && CanFireNow(ps[k]) then AfterFire(ps[k]) else ps[k]
      {
        label Start:
        ShotsSnoc(ps, i, sx, sy, heading, cx, cy, shipId, trig);
        var fired := FireIfReady(components[i], trig);
        FlightsUnchanged@Start(projectiles);
        FlightsAppend(projectiles, fired);
        projectiles := projectiles + fired;
      }
      assert ps[..|ps|] == ps;
      PartsOfValues(cs, if powered then Volley(ps) else ps);
    }

    /** One pass of FireWeapons' loop: the component fires and spawns its projectile if it can and the ship has the power. */
    method FireIfReady(comp: Component, trig: Trig) returns (fired: seq<Projectile>)
      modifies comp
      ensures var ready := CanFireNow(old(comp.Value())) && powerAvailable >= powerUsed;
        comp.Value() == (if ready then AfterFire(old(comp.Value())) else old(comp.Value())) &&
        FlightsOf(fired) == if ready then [ShotFor(old(comp.Value()), x, y, angle, CentreX(), CentreY(), shipId, trig)] else []
      ensures |fired| <= 1 && forall k :: 0 <= k < |fired| ==> fresh(fired[k])
    {
      fired := [];
      if comp.CanFire() && powerAvailable >= powerUsed {
        ghost var before := comp.Value();
        comp.Fire();
        ShotAfterFire(before, x, y, angle, CentreX(), CentreY(), trig);
        var (spawnX, spawnY) := SpawnPoint(comp.Value(), x, y, angle, CentreX(), CentreY(), trig);
        var projType := if comp.kind == WEAPON_LASER then LASER else CANNON;
        var damage := if projType == LASER then 10 else 25;
        var speed := if projType == LASER then 500.0 else 350.0;
        var projectile := new Projectile(spawnX, spawnY, angle, speed, damage, projType, shipId, trig);
        fired := [projectile];
      }
    }

    /**
     * A hit at world position (hitX, hitY): the first component in the cell it maps to takes
     * the damage and is removed from the list when its health reaches 0.
     */
    method TakeDamage(damage: int, hitX: real, hitY: real, trig: Trig)
      requires Valid()
      modifies this, components
      ensures Valid()
      ensures var cell := HitCell(x, y, angle, hitX, hitY, CentreX(), CentreY(), trig);
        Parts() == RouteDamage(old(Parts()), cell.0, cell.1, damage)
      ensures Kinematics() == old(Kinematics()) && crewManager == old(crewManager) && target == old(target)
    {
      ghost var manager := crewManager;
      var (gridX, gridY) := HitCell(x, y, angle, hitX, hitY, CentreX(), CentreY(), trig);
      DamageCell(gridX, gridY, damage);
      RecalculateStats();
      CrewUnchanged(manager);
    }

    /** Components.Remove(comp), for the component at index i: the first occurrence goes, and with it its value. */
    method RemoveDestroyed(comp: Component, ghost i: int)
      requires Distinct(components) && 0 <= i < |components| && components[i] == comp
      modifies this
      ensures Distinct(components)
      ensures components == RemoveFirst(old(components), comp)
      ensures Parts() == old(Parts())[..i] + old(Parts())[i + 1..]
      ensures Kinematics() == old(Kinematics()) && crewManager == old(crewManager) && target == old(target)
    {
      ghost var cs := components;
      assert comp !in cs[..i];
      DistinctWithout(cs, i);
      RemoveFirstAt(cs, comp, i);
      components := RemoveFirst(components, comp);
      PartsOfWithout(cs, i);
    }

    /** When only the component at index i has changed, the values differ at index i only. */
    twostate lemma OneChanged(i: int)
      requires unchanged(this) && 0 <= i < |components| && Distinct(components)
      requires forall k :: 0 <= k < |components| && k != i ==> unchanged(components[k])
      ensures Parts() == old(Parts())[i := components[i].Value()]
    {
    }

    /** The component half of TakeDamage, once the hit is mapped to the cell (gridX, gridY). */
    method DamageCell(gridX: int, gridY: int, damage: int)
      requires Distinct(components)
      modifies this, components
      ensures Distinct(components)
      ensures Parts() == RouteDamage(old(Parts()), gridX, gridY, damage)
      ensures Kinematics() == old(Kinematics()) && crewManager == old(crewManager) && target == old(target)
    {
      ghost var ps := Parts();
      var comp := GetComponentAt(gridX, gridY);
      if comp != null {
        ghost var cs := components;
        ghost var i := FindAt(ps, gridX, gridY).index;
        var destroyed := comp.TakeDamage(damage);
        OneChanged(i);
        assert AfterDamage(ps[i], damage) == (cs[i].Value(), destroyed);
        if destroyed {
          RemoveDestroyed(comp, i);
        } else {
          assert Parts() == ps[i := cs[i].Value()];
        }
      }
    }
  }
}
