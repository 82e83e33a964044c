# Subspace combat core in Dafny

Subspace is a 2D space-combat game. It has two parallel implementations: C# (MonoGame) and
Python (pygame). A ship is a 10 x 10 grid of modular components: core, engines, lasers,
cannons, armor, reactors and shields. The ship's health, power and thrust are sums over its
components. Weapons fire projectiles that live for 3 seconds. A hit is routed into the grid
cell under the impact point, and a ship whose last core is destroyed is dead. On the C# side,
each ship also carries a crew. Crew members walk to stations that need staffing and work
there.

This project models that core twice, once in each language, and proves properties of both
models. The shared numeric model is reals for floats, with the platform's `cos`, `sin`,
`sqrt` and `atan2` passed in as a `Trig` value.

Modules:

- `Config`: the physics and grid constants: cell size 32, speed cap 300, drag 0.98, pi, and
  the 10 x 10 grid.
- `Geometry`: three pieces of numeric modelling.
  - the `Trig` parameter and the predicate saying its square root is sound;
  - truncation of a float to an int, `Trunc`;
  - the two remainders used to wrap the heading: C#'s truncated `%` (`CsRem`) and Python's
    floored `%` (`PyMod`).

  It also holds the integer rectangle of the graphics frameworks, `Rect`.
- `Lists`: lists with no repeated object, and list removal of the first occurrence of an
  object.
- `Components`: the ship parts.
  - the stats table;
  - a component as a value, `Part`, with functions for damage, cooldown and firing;
  - the C# `Component` class, proved against those functions.
- `PyComponents`: the same thing for Python. It has its own stats dictionary, proved equal to
  the C# switch, and its own `Component` class.
- `Projectiles`: a projectile as a value, `Flight`, with launch, advance and collision, and the
  C# `Projectile` class.
- `PyProjectiles`: the Python `Projectile` class, proved against the same functions.
- `ShipSpec`: value-level specifications of ship behaviour.
  - aggregation of stats, and lookup and removal of a cell;
  - damage routing and core survival;
  - the bounding box;
  - the volley of shots and the two default layouts;
  - the AI's steering and the motion integration of one update.
- `CrewSpec`: crew members as values.
  - one update step: walking, arrival, working or idling;
  - the greedy pass that sends idle crew to understaffed stations.
- `Ships`: the C# `Ship`, `CrewManager` and `CrewMember` classes. Every method is proved
  against `ShipSpec` and `CrewSpec`.
- `PyShips`: the Python `Ship` class, proved against `ShipSpec`. It also proves where the
  Python integer arithmetic (`//`, `int` offsets) agrees with the C# float arithmetic.

Each class keeps the fields of its source that the simulation uses and updates them in
place. Fields the source never reassigns after construction are `const`. The few fields the
core never reads are listed under "## Left out". Each method states its new state as a
function of the old one: `Value() == AfterDamage(old(Value()), damage)`,
`Parts() == RouteDamage(old(Parts()), cell.0, cell.1, damage)`, and so on. The lemmas state
what those functions mean: aggregates, survival, bounds, speed caps and crew assignment.

## Model

| member | source | states |
|---|---|---|
| Geometry.Trunc | Ship.cs:298-299 | the int cast of a float is truncation toward zero: for v >= 0 it is the floor; for v < 0 it is the smallest integer not below v |
| Geometry.CsRem | Ship.cs:167-168 | C#'s float `%` keeps the sign of the dividend, lies strictly within (-m, m), and leaves values already inside (-m, m) unchanged |
| Geometry.PyMod | game/src/ship.py:139-140 | Python's float `%` lies in [0, m) for positive m, and leaves values already in [0, m) unchanged |
| Geometry.RemaindersAgreeOnNonNegative | Ship.cs:167-168 | for non-negative headings the C# and Python remainders give the same result |
| Geometry.RemaindersDifferOnNegative | game/src/ship.py:139-140 | for a negative heading that is not a whole number of turns, C# gives a negative remainder and Python gives that value plus 2 pi |
| Geometry.ElapsedOfPositive | Projectile.cs:56-67 | the total of a series of positive frame times is non-negative and at least the first frame's time |
| Lists.RemoveFirst | Ship.cs:306-307 | List.Remove of an object the list does not hold leaves the list unchanged |
| Lists.RemoveFirstAt | game/src/ship.py:247-248 | list.remove of an object whose first occurrence is at index i cuts exactly index i out of the list |
| Lists.DistinctWithout | Ship.cs:306-307 | removing one entry from a list with no repeated object leaves a list with no repeated object |
| Components.GetStats | Components.cs:69-89 | every stats record starts at full health, with positive maximum health and non-negative power and thrust; only engines have thrust; only cores and reactors generate power; any unknown kind gets the "Unknown" record (50/50 health, no power, no thrust) |
| Components.Initial | Components.cs:59-67 | a new component has the given kind and cell, the stats of its kind, zero cooldown and full health |
| Components.AfterDamage | Components.cs:91-100 | damage changes only health, which becomes max(0, health - damage); the result reports destruction exactly when health reached 0; non-negative damage never raises health or breaks 0 <= health <= maxHealth |
| Components.AfterUpdate | Components.cs:102-106 | a positive cooldown decreases by dt; a non-positive cooldown is left alone; kind, cell and stats never change |
| Components.AfterFire | Components.cs:115-121 | firing a weapon sets its cooldown (0.5 s for a laser, 1.5 s for a cannon) and changes nothing else; firing a non-weapon changes nothing |
| Components.FiredWeaponIsCoolingDown | Components.cs:108-121 | a weapon that could fire cannot fire again right after firing; its cooldown is positive and its stats are unchanged |
| Components.CoolingReachesReady | Components.cs:102-113 | after frames totalling at least the cooldown, the cooldown is non-positive and stats and kind are unchanged; a weapon with health left can then fire |
| Components.DamageSeriesKeepsHealthy | Components.cs:91-100 | any series of non-negative hits keeps 0 <= health <= maxHealth; health never rises, maxHealth never changes, and a component at 0 health stays at 0 |
| Components.Component.constructor | Components.cs:59-67 | the built component's value is the initial component of its kind and cell |
| Components.Component.TakeDamage | Components.cs:91-100 | updates the component to the damaged value and returns whether it was destroyed, as AfterDamage specifies |
| Components.Component.Update | Components.cs:102-106 | updates the component to the cooled-down value, as AfterUpdate specifies |
| Components.Component.CanFire | Components.cs:108-113 | true exactly for a laser or cannon with non-positive cooldown and positive health |
| Components.Component.Fire | Components.cs:115-121 | updates the component to the fired value, as AfterFire specifies |
| PyComponents.DictStats | game/src/components.py:39-100 | the dictionary holds exactly the seven known kinds; a lookup of any other kind falls back to the "Unknown" stats |
| PyComponents.DictMatchesSwitch | game/src/components.py:41-100 | for every kind string, the Python stats dictionary with its default gives the same record as the C# switch |
| PyComponents.Component.constructor | game/src/components.py:31-37 | the built component's value is the initial component of its kind and cell |
| PyComponents.Component.TakeDamage | game/src/components.py:102-108 | updates the component to the damaged value and returns whether it was destroyed, as AfterDamage specifies |
| PyComponents.Component.Update | game/src/components.py:110-113 | updates the component to the cooled-down value, as AfterUpdate specifies |
| PyComponents.Component.CanFire | game/src/components.py:115-119 | true exactly for a laser or cannon with non-positive cooldown and positive health |
| PyComponents.Component.Fire | game/src/components.py:121-126 | updates the component to the fired value, as AfterFire specifies |
| Projectiles.Launch | Projectile.cs:27-41 | a new projectile keeps its arguments, is alive with 3 s to live, and flies at speed along its angle (velocity = speed times (cos, sin)) |
| Projectiles.Advance | Projectile.cs:56-67 | a dead projectile is untouched; a live one moves by velocity * dt and loses dt of lifetime; afterwards it is dead exactly when it was dead or its lifetime reached 0; angle, speed, damage, kind, owner and velocity never change |
| Projectiles.DeadStaysDead | Projectile.cs:58-59 | a dead projectile stays exactly as it is through any series of frames |
| Projectiles.StraightFlight | Projectile.cs:56-67 | over any series of frames the shot is the same shot; if it is still alive it was alive at the start, and it has moved in a straight line by velocity times elapsed time with that much less lifetime, which is still positive |
| Projectiles.ExpiresAfterLifetime | Projectile.cs:65-66 | once the frames add up to its lifetime, a projectile is dead |
| Projectiles.HitIsNearRect | Projectile.cs:107-110 | a projectile that hits a rectangle lies within one unit of it on both axes |
| Projectiles.InsideAtNonNegativeIsHit | Projectile.cs:107-110 | at non-negative coordinates, a point inside the rectangle is a hit |
| Projectiles.NegativeInsideMisses | Projectile.cs:107-110 | truncation toward zero makes the point (-0.5, -0.5) miss the 1 x 1 rectangle at (-1, -1) that contains it |
| Projectiles.Projectile.constructor | Projectile.cs:27-54 | the built projectile's value is the launched flight |
| Projectiles.Projectile.Update | Projectile.cs:56-67 | updates the projectile to the advanced value, as Advance specifies |
| Projectiles.Projectile.CheckCollision | Projectile.cs:107-110 | true exactly when the truncated position lies inside the rectangle |
| PyProjectiles.Projectile.constructor | game/src/projectile.py:9-31 | the built projectile's value is the launched flight |
| PyProjectiles.Projectile.Update | game/src/projectile.py:33-43 | updates the projectile to the advanced value, as Advance specifies |
| PyProjectiles.Projectile.CheckCollision | game/src/projectile.py:66-68 | true exactly when the truncated position lies inside the rectangle |
| ShipSpec.AggregateConcat | Ship.cs:98-114 | the stats of two lists put together are the sums of the stats of each list |
| ShipSpec.AggregateWithout | Ship.cs:122-126 | a list's aggregate is the aggregate without entry i plus what entry i contributes |
| ShipSpec.AggregateInsert | Ship.cs:116-120 | inserting a component anywhere adds exactly its contribution to the aggregate |
| ShipSpec.AggregateReplace | Ship.cs:302-308 | replacing one entry changes the aggregate by the new entry's contribution minus the old one's |
| ShipSpec.AggregateOfHealthy | Ship.cs:106-113 | if every component has 0 <= health <= maxHealth, so does the ship's total |
| ShipSpec.Cooled | Ship.cs:135-137 | updating every component keeps the list's length, and each entry is that component cooled down by dt |
| ShipSpec.CooledKeepsAggregate | Ship.cs:135-171 | cooling down components never changes the ship's aggregate stats |
| ShipSpec.FindAt | Ship.cs:128-131 | the lookup finds the first component at the cell and reports Missing exactly when no component is there |
| ShipSpec.RemoveAt | Ship.cs:122-126 | removal by cell keeps exactly the components not at that cell, and never lengthens the list |
| ShipSpec.RemoveAtConcat | Ship.cs:124 | removal by cell distributes over concatenation, so order is kept |
| ShipSpec.RemoveAtMissing | Ship.cs:122-126 | removing an empty cell leaves the list unchanged |
| ShipSpec.HitCellExample | Ship.cs:286-299 | on an unrotated ship at the origin, a hit 32 units right of the centre lands in cell (6, 5) |
| ShipSpec.HitCellUnrotated | Ship.cs:288-299 | on an unrotated ship, the hit cell is the truncation of the offset over 32 plus the grid centre |
| ShipSpec.RouteDamageMissEffect | Ship.cs:301-308 | a hit on an empty cell changes no component |
| ShipSpec.RouteDamageRemoves | Ship.cs:303-307 | a hit that takes the component to 0 health removes exactly that component; the others keep their values and order |
| ShipSpec.RouteDamageKeeps | Ship.cs:303-308 | a hit that leaves health above 0 keeps every component in place and sets only the hit one's health, to the clamped difference |
| ShipSpec.RouteDamageTotals | Ship.cs:286-311 | routed damage lowers total health by what the hit component lost. A destroyed component also removes its maximum health, power and thrust from the totals. Otherwise only health changes |
| ShipSpec.RouteDamageMiss | Ship.cs:301-311 | a miss leaves the aggregates unchanged |
| ShipSpec.RouteDamageCore | Ship.cs:286-316 | after a hit the ship still has a core unless it had none, or the hit destroyed a core and no other core was left |
| ShipSpec.CoreAfterRemoval | Ship.cs:313-316 | without entry i, the list has a core exactly when some other entry is a core |
| ShipSpec.CoreAfterReplace | Ship.cs:313-316 | replacing an entry with one of the same kind does not change whether there is a core |
| ShipSpec.MinGridX | Ship.cs:323 | the minimum column is the column of some component, and no component lies left of it |
| ShipSpec.MaxGridX | Ship.cs:324 | the maximum column is the column of some component, and no component lies right of it |
| ShipSpec.MinGridY | Ship.cs:325 | the minimum row is the row of some component, and no component lies above it |
| ShipSpec.MaxGridY | Ship.cs:326 | the maximum row is the row of some component, and no component lies below it |
| ShipSpec.BoundsShape | Ship.cs:318-340 | the box is 32 times the column and row span, and its corner is the truncated world position of the minimum cell's top-left edge |
| ShipSpec.BoundsEmpty | Ship.cs:320-321 | a ship with no components has the 1 x 1 box at its truncated position |
| ShipSpec.BoundsCoverCellCentres | Ship.cs:318-340 | the box contains the truncated world centre of every component cell |
| ShipSpec.RoutingAndBoundsDisagree | Ship.cs:286-340 | damage routing puts cell centres on half-cell boundaries, unlike the box. On an unrotated ship with one component in cell (5, 5), a hit 20 units right is routed to (5, 5) but falls outside the box. A hit 10 units left is inside the box but routed to the empty cell (4, 5) |
| ShipSpec.ShotAfterFire | Ship.cs:258-271 | firing a weapon moves neither its spawn point nor its kind, so computing the spawn after Fire is sound |
| ShipSpec.Volley | Ship.cs:256-261 | after a volley each component has fired if it could, and is unchanged otherwise |
| ShipSpec.ReadyWeapons | Ship.cs:256-258 | the ready weapons are exactly those components that can fire |
| ShipSpec.ShotsMatchReadyWeapons | Ship.cs:252-284 | a volley holds exactly one projectile per ready weapon, in list order. Each starts at its weapon's rotated cell position, flies along the ship's heading, belongs to the ship and is alive with 3 s to live. A laser shot has damage 10 and speed 500; a cannon shot damage 25 and speed 350 |
| ShipSpec.VolleyDischarges | Ship.cs:252-284 | right after a volley no weapon is ready, so a second volley fires nothing and changes nothing; a volley never changes the aggregates |
| ShipSpec.NothingReadyNoShots | Ship.cs:256-258 | when no component can fire, no projectile is made |
| ShipSpec.SameStatsSameAggregate | Ship.cs:98-114 | the aggregate depends only on the components' stats, not on their position or cooldown |
| ShipSpec.Build | Ship.cs:64-96 | building a cell table gives one initial component per cell, in table order |
| ShipSpec.TablesBuildLayouts | Ship.cs:64-96 | the player and enemy cell tables build exactly the two default layouts |
| ShipSpec.PlayerLayoutFacts | Ship.cs:64-86 | the player ship has 11 components in distinct cells, including a core. Its totals are health 1050/1050, power 250 available and 70 used, thrust 400 |
| ShipSpec.EnemyLayoutFacts | Ship.cs:88-96 | the enemy ship has 5 components in distinct cells, including a core. Its totals are health 520/520, power 150 available and 25 used, thrust 200 |
| ShipSpec.TurnRateValues | Ship.cs:197-202 | the AI's turn rate is -2, 0 or 2. It is 0 exactly when the heading error is within 0.1 rad, and its sign follows the error's |
| ShipSpec.NormalizeAngle | Ship.cs:190-195 | the two normalisation loops end with the difference in [-pi, pi], a whole number of turns from the input. A difference already in range is kept, so a target exactly behind stays at +pi. One above the range ends above -pi, and one below it ends below pi |
| ShipSpec.NormalizedIsUnique | Ship.cs:190-195 | what the loops leave is determined by the input, including at odd multiples of pi, where both ends of the range are whole turns away |
| ShipSpec.BehindTurnsPositive | Ship.cs:190-202 | a heading difference of exactly pi is left at pi, so the AI turns at +2 |
| ShipSpec.LimitVelocityBound | Ship.cs:154-160 | given the velocity's true length, the capped velocity is no faster than 300. A faster velocity becomes exactly speed 300 in the same direction; a slower one is untouched |
| ShipSpec.Thrust | Ship.cs:214-221 | without positive thrust or with a power deficit, thrust changes nothing; otherwise it changes only the velocity |
| ShipSpec.ThrustMagnitude | Ship.cs:216-220 | with cos and sin on the unit circle, powered thrust changes the velocity by exactly thrust * dt |
| ShipSpec.SteerEffect | Ship.cs:197-211 | steering sets the turn rate to -2, 0 or 2 (0 exactly within 0.1 rad) and keeps position and heading. The velocity changes only when the error is under 0.5 rad, the target is beyond 300, and the ship has thrust and power |
| ShipSpec.CoastEffect | Ship.cs:149-165 | with a sound square root, after drag and the cap the speed is at most 300. A dragged velocity within the cap is kept; the spin decays by the drag factor; position and heading advance by the new rates times dt |
| ShipSpec.TickCs | Ship.cs:149-168 | one C# motion step leaves the heading in (-2 pi, 2 pi). Everything else is as after coasting, and a heading already in [0, 2 pi) is kept |
| ShipSpec.TickPy | game/src/ship.py:123-140 | one Python motion step leaves the heading in [0, 2 pi). Everything else is as after coasting, and a heading already in [0, 2 pi) is kept |
| ShipSpec.HeadingWrapsDiffer | Ship.cs:167-168 | a ship whose heading goes below 0 in a tick ends with a negative heading in C# and that heading plus 2 pi in Python |
| ShipSpec.Turned | Ship.cs:246-250 | manual rotation changes only the spin; direction 0 changes nothing; with positive dt the spin rises exactly for positive directions and falls exactly for negative ones |
| CrewSpec.Recruit | Crew.cs:29-41 | a new crew member has its id and position, no assignment or target, is idle and has done no work |
| CrewSpec.Walk | Crew.cs:62-95 | a walking step leaves id and work alone and ends Walking or Working. On arrival the member stands at the post, assigned to the target with no target left; otherwise assignment and target are kept |
| CrewSpec.ArrivalRadius | Crew.cs:73-83 | with a sound square root, a member arrives exactly when its distance to the post is below 5 |
| CrewSpec.WalkClosesDistance | Crew.cs:84-94 | with a sound square root, a member still walking at distance d from its post ends at distance abs(d - 50 * dt): exactly 50 * dt closer when 50 * dt <= d, and past the post by the excess when the step overshoots |
| CrewSpec.WalkStep | Crew.cs:84-94 | a member still walking was at least 5 from its post, and moved along the unit direction by 50 * dt |
| CrewSpec.Step | Crew.cs:43-60 | one update keeps the id. A member becomes idle exactly when it has neither assignment nor target. A member with a target other than its post walks; an assigned member works and accrues dt; an assignment changes only on arrival at the target. Settled members stay settled and keep their post |
| CrewSpec.AssignTo | Crew.cs:97-101 | assigning sets the target and resets the work to 0, changing nothing else |
| CrewSpec.ArrivedCount | Crew.cs:179 | the count of crew at a component is at most the crew size, and 0 exactly when nobody is assigned there |
| CrewSpec.ArrivedCountByAssignment | Crew.cs:179 | the count depends only on the members' assignments |
| CrewSpec.IdleIndices | Crew.cs:167 | the idle list holds, in order and without repeats, exactly the members that are idle and unassigned |
| CrewSpec.Needy | Crew.cs:170-184 | the needy stations are exactly the reactors, weapons and engines in the list with fewer arrived crew than required (2 for a reactor, 1 otherwise) |
| CrewSpec.NeedyDistinct | Crew.cs:170-184 | a component list without repeats gives a needy list without repeats |
| CrewSpec.DispatchAt | Crew.cs:184-189 | sending idle members to targets assigns the k-th sent member to the k-th target and leaves everyone else as they were |
| CrewSpec.DispatchKeepsAssignments | Crew.cs:97-101 | sending members anywhere leaves every assignment, id and state as it was |
| CrewSpec.DispatchKeepsCount | Crew.cs:179-189 | sending members does not change any component's arrived count, which is why the pass can count against the start-of-pass crew |
| CrewSpec.AssignIdleEffect | Crew.cs:165-192 | one pass sends min(idle, needy) members. They are the first idle members in crew order, each to the matching needy station in component order. When the component list has no repeated object, which the ship's invariant guarantees, no station is served twice. Every sent member was available and is now targeted at its station; everyone else is unchanged; nobody's assignment, id or state changes |
| CrewSpec.StaffedGetNone | Crew.cs:172-184 | a station that is not a reactor, weapon or engine, or already has its required crew, is never served |
| CrewSpec.WalkersAreNotCounted | Crew.cs:179-189 | a member walking to an engine is not counted there, so an idle member is sent to the same engine too |
| CrewSpec.WalkerExamplePass | Crew.cs:165-192 | in that example the pass sends member 1 to the engine |
| CrewSpec.StepAll | Crew.cs:156-159 | updating the crew steps every member once, in place |
| CrewSpec.Recruits | Crew.cs:146-152 | adding count members creates max(0, count) idle members at the given point with consecutive ids |
| CrewSpec.RecruitsKeepIdsUnique | Crew.cs:146-152 | taking ids from the counter keeps every crew id distinct and below the counter |
| CrewSpec.SameIdsKeepUnique | Crew.cs:43-101 | operations that keep ids keep them unique |
| CrewSpec.CountState | Crew.cs:203-204 | the count of members in a state is at most the crew size, and 0 exactly when nobody is in it |
| CrewSpec.StatesPartitionCrew | Crew.cs:202-204 | idle, walking and working members add up to the whole crew, so idle plus working never exceeds it |
| CrewSpec.SteppedIdleIsAvailable | Crew.cs:43-60 | a member idle after its update has no assignment or target, so the pass may send it |
| Ships.Keep | Ship.cs:124 | the filtered list holds only components of the original list that are not at the cell |
| Ships.KeepParts | Ship.cs:122-126 | filtering component objects by cell gives, as values, the component values removed by cell |
| Ships.KeepDistinct | Ship.cs:124 | filtering keeps the list free of repeated objects |
| Ships.CrewMember.constructor | Crew.cs:29-41 | the built member's value is the recruit |
| Ships.CrewMember.Update | Crew.cs:43-60 | updates the member to the stepped value, as Step specifies |
| Ships.CrewMember.MoveToComponent | Crew.cs:62-95 | updates the member to the walked value, as Walk specifies |
| Ships.CrewMember.AssignTo | Crew.cs:97-101 | updates the member to the assigned value, as AssignTo specifies |
| Ships.CrewManager.constructor | Crew.cs:141-144 | a new manager belongs to its ship, has no crew and starts ids at 0 |
| Ships.CrewManager.AddCrew | Crew.cs:146-152 | appends max(0, count) recruits with consecutive ids from the counter, keeps the existing crew and advances the counter |
| Ships.CrewManager.Update | Crew.cs:154-163 | the crew becomes the assignment pass applied to the stepped crew, keeping the manager's invariant |
| Ships.CrewManager.StepCrew | Crew.cs:156-159 | every member is stepped once, in place |
| Ships.CrewManager.AssignIdleCrew | Crew.cs:165-192 | the crew becomes the assignment pass's result |
| Ships.CrewManager.ServeStation | Crew.cs:172-189 | an understaffed station with an idle member left takes the next one, assigned to it; otherwise nothing changes |
| Ships.CrewManager.GetTotalCrew | Crew.cs:202 | the crew size |
| Ships.CrewManager.GetIdleCrew | Crew.cs:203 | the number of idle members: at most the crew size, and 0 exactly when nobody is idle |
| Ships.CrewManager.GetWorkingCrew | Crew.cs:204 | the number of working members, at most the members that are not idle |
| Ships.Ship.constructor | Ship.cs:38-62 | a new ship is at rest at its position with heading 0. It has the player or enemy layout, cached totals equal to that layout's aggregate, and a fresh crew of 5 (player) or 3 (enemy) recruits at its position |
| Ships.Ship.InitializeCrew | Ship.cs:57-61 | installs a fresh crew manager with count recruits and restores the ship's invariant, leaving components, motion and totals alone |
| Ships.Ship.AddNew | Ship.cs:67 | appends a fresh initial component and keeps the list free of repeats |
| Ships.Ship.AddCells | Ship.cs:64-96 | appends one fresh initial component per table cell, in order |
| Ships.Ship.CreatePlayerShip | Ship.cs:64-86 | appends the player layout to the components |
| Ships.Ship.CreateEnemyShip | Ship.cs:88-96 | appends the enemy layout to the components |
| Ships.Ship.RecalculateStats | Ship.cs:98-114 | the cached totals become the aggregate of the components; nothing else changes |
| Ships.Ship.SumStats | Ship.cs:106-113 | the summing loop computes the aggregate of the list it is given |
| Ships.Ship.AddComponent | Ship.cs:116-120 | appends the component and recomputes the totals, keeping the invariant |
| Ships.Ship.RemoveComponent | Ship.cs:122-126 | drops every component at the cell, keeping order, and recomputes the totals |
| Ships.Ship.GetComponentAt | Ship.cs:128-131 | null exactly when no component is at the cell; otherwise the first component in list order at that cell |
| Ships.Ship.IsDestroyed | Ship.cs:313-316 | true exactly when no component is a core |
| Ships.Ship.GetBounds | Ship.cs:318-340 | the box of an empty ship is 1 x 1 at its truncated position. Otherwise it spans 32 times the column and row span, with its corner at the truncated world edge of the minimum cell |
| Ships.Ship.ApplyThrust | Ship.cs:214-243 | changes the motion as Thrust specifies and nothing else |
| Ships.Ship.Rotate | Ship.cs:246-250 | changes the spin as Turned specifies and nothing else |
| Ships.Ship.UpdateAI | Ship.cs:174-211 | without a target nothing changes. With one, the measures are as Aimed states: the normalised difference is the one the loops determine. A ship 10 or more away steers (turn rate, and thrust when facing and far); a closer one does nothing |
| Ships.Ship.Update | Ship.cs:133-171 | one update cools every component and runs one crew step and pass. An enemy with a target adopts and steers toward it. Then the motion takes one C# tick, and components and totals keep the invariant |
| Ships.Ship.UpdateSystems | Ship.cs:135-140 | cools every component and runs the crew update, keeping the invariant |
| Ships.Ship.UpdateMotion | Ship.cs:142-171 | adopts the target for an enemy, steers, takes one C# motion tick and recomputes the totals, leaving the components alone |
| Ships.Ship.CoolComponents | Ship.cs:135-137 | every component is cooled down by dt, in place |
| Ships.Ship.Move | Ship.cs:149-168 | the motion takes one C# tick: drag, cap, integration, truncated wrap |
| Ships.Ship.LimitSpeed | Ship.cs:154-160 | the velocity is capped as Capped specifies |
| Ships.Ship.Integrate | Ship.cs:162-165 | position and heading advance by velocity and spin times dt |
| Ships.Ship.FireWeapons | Ship.cs:252-284 | with no power deficit, returns one projectile per ready weapon in list order and discharges exactly those weapons; otherwise returns nothing and changes nothing |
| Ships.Ship.FireEach | Ship.cs:256-281 | the firing loop: projectiles and component values as FireWeapons states |
| Ships.Ship.FireIfReady | Ship.cs:258-279 | a ready weapon with power fires and yields one new projectile at its spawn point; otherwise nothing happens |
| Ships.Ship.TakeDamage | Ship.cs:286-311 | routes the damage to the cell under the hit point, rotated into the ship's frame, and restores the cached totals |
| Ships.Ship.RemoveDestroyed | Ship.cs:306-307 | List.Remove of the destroyed component cuts exactly its index out and keeps the list free of repeats |
| Ships.Ship.DamageCell | Ship.cs:301-308 | the components become the routed-damage result for that cell |
| PyShips.Keep | game/src/ship.py:101-102 | the comprehension keeps only components of the original list that are not at the cell |
| PyShips.KeepParts | game/src/ship.py:99-103 | filtering component objects by cell gives, as values, the component values removed by cell |
| PyShips.KeepDistinct | game/src/ship.py:101-102 | filtering keeps the list free of repeated objects |
| PyShips.PyBoundsAgree | game/src/ship.py:259-280 | the Python box, with floor division and integer centre, is the C# box |
| PyShips.PySpawnAgrees | game/src/ship.py:203-211 | the Python spawn point, with integer offsets, is the C# one |
| PyShips.TickPyBounds | game/src/ship.py:123-140 | with a sound square root, after one Python tick the speed is at most 300 and the heading lies in [0, 2 pi) |
| PyShips.Ship.constructor | game/src/ship.py:13-45 | a new ship is at rest at its position with heading 0, has the player or enemy layout, and has cached totals equal to its aggregate |
| PyShips.Ship.AddNew | game/src/ship.py:50 | appends a fresh initial component and keeps the list free of repeats |
| PyShips.Ship.AddCells | game/src/ship.py:47-77 | appends one fresh initial component per table cell, in order |
| PyShips.Ship.RecalculateStats | game/src/ship.py:79-92 | the cached totals become the aggregate of the components; nothing else changes |
| PyShips.Ship.SumStats | game/src/ship.py:87-92 | the summing loop computes the aggregate of the list it is given |
| PyShips.Ship.AddComponent | game/src/ship.py:94-97 | appends the component and recomputes the totals, keeping the invariant |
| PyShips.Ship.RemoveComponent | game/src/ship.py:99-103 | drops every component at the cell, keeping order, and recomputes the totals |
| PyShips.Ship.GetComponentAt | game/src/ship.py:105-110 | the search loop returns None exactly when no component is at the cell, and otherwise the first one there |
| PyShips.Ship.IsDestroyed | game/src/ship.py:252-257 | the search loop answers true exactly when no component is a core |
| PyShips.Ship.GetBounds | game/src/ship.py:259-280 | the box of an empty ship is 1 x 1 at its truncated position. Otherwise it spans 32 times the column and row span, with its corner at the truncated world edge of the minimum cell |
| PyShips.Ship.ApplyThrust | game/src/ship.py:182-187 | changes the motion as Thrust specifies and nothing else |
| PyShips.Ship.Rotate | game/src/ship.py:189-192 | changes the spin as Turned specifies and nothing else |
| PyShips.Ship.UpdateAI | game/src/ship.py:145-180 | without a target nothing changes. With one, the measures are as Aimed states: the normalised difference is the one the loops determine. A ship 10 or more away steers; a closer one does nothing |
| PyShips.Ship.Update | game/src/ship.py:112-143 | one update cools every component. An enemy with a target adopts and steers toward it. Then the motion takes one Python tick, which leaves the heading in [0, 2 pi), and the totals keep the invariant |
| PyShips.Ship.UpdateMotion | game/src/ship.py:118-143 | adopts the target for an enemy, steers, takes one Python tick and recomputes the totals |
| PyShips.Ship.CoolComponents | game/src/ship.py:115-116 | every component is cooled down by dt, in place |
| PyShips.Ship.Move | game/src/ship.py:123-140 | the motion takes one Python tick: drag, cap, integration, floored wrap |
| PyShips.Ship.LimitSpeed | game/src/ship.py:128-132 | the velocity is capped as Capped specifies |
| PyShips.Ship.Integrate | game/src/ship.py:134-137 | position and heading advance by velocity and spin times dt |
| PyShips.Ship.FireWeapons | game/src/ship.py:194-226 | with no power deficit, returns one projectile per ready weapon in list order and discharges exactly those weapons; otherwise returns nothing and changes nothing |
| PyShips.Ship.FireEach | game/src/ship.py:198-224 | the firing loop: projectiles and component values as FireWeapons states |
| PyShips.Ship.FireIfReady | game/src/ship.py:199-224 | a ready weapon with power fires and yields one new projectile at its spawn point; otherwise nothing happens |
| PyShips.Ship.TakeDamage | game/src/ship.py:228-250 | routes the damage to the cell under the hit point, rotated into the ship's frame, and restores the cached totals |
| PyShips.Ship.RemoveDestroyed | game/src/ship.py:247-248 | list.remove of the destroyed component cuts exactly its index out and keeps the list free of repeats |
| PyShips.Ship.DamageCell | game/src/ship.py:243-248 | the components become the routed-damage result for that cell |

## Left out

- Rendering is not modelled: the Render and Draw methods, colours, sprites and the crew colour drawn from `Random(id)`. None of it affects the simulation state.
- The game loop, input handling, particles, starfield and nebula are callers or decoration (Game1.cs, Program.cs, game.py, particles.py and the others), not the core.
- Floating point is modelled by exact reals. Float rounding and IEEE special values (NaN, infinity) are not modelled, nor are the `(float)` casts of the C# code.
- Math.Cos, Math.Sin, Math.Sqrt and Math.Atan2 (math.cos and the rest in Python) are external library calls. They are a `Trig` parameter. Properties that need a real square root assume `SqrtSound`; the thrust magnitude assumes cos and sin on the unit circle.
- Int overflow is not modelled: ints are unbounded. Health, power and ids stay far from 32-bit limits in the game.
- Ships.Ship.AddComponent: requires that the component object is not already in the list. The source appends without checking; the model keeps the list free of repeated objects so that updating one component object updates one entry. The same holds for PyShips.Ship.AddComponent.
- Ships.Ship.FireWeapons: states only that each projectile returned by one firing step is fresh. It does not state that the projectiles are distinct objects from one another. The same holds for PyShips.Ship.FireWeapons.
- Ships.Ship.InitializeCrew: the C# constructor's inline crew setup is modelled as this helper method. Likewise the loop blocks of Update, FireWeapons and TakeDamage are modelled as UpdateSystems, UpdateMotion, CoolComponents, FireEach, FireIfReady, DamageCell and RemoveDestroyed.
- Ships.Ship.AddCells: the explicit `Components.Add` calls of the two layout builders are modelled as a loop over a cell table. TablesBuildLayouts proves that the tables give the same lists.
- ApplyThrust's optional particle system argument and the engine-particle block (Ship.cs:222-242) affect only particles, so they are left out.
- The C# `AIState` property (Ship.cs:36) and the Python `ai_state` field (game/src/ship.py:37) are never read in the core, so they are left out.
- Several settable properties are `const` in the model: the ship's id and player flag (Ship.cs:16-17, game/src/ship.py:16-17), and a component's kind and cell (Components.cs:52-54, game/src/components.py:32-34). The source declares them `{ get; set; }` or as plain attributes, but nothing reassigns them after construction: not the core and not its callers Game1.cs and game.py. The model therefore does not capture a later reassignment of these fields.
- The Python component `rotation` field and the C# `Rotation` property are never read in the core, so they are left out.
- The crew member's `currentPath` and corridor speed are a pending pathfinding TODO in the source, never used, so crew always walk at room speed, 50.
- The grid width and height are constants (10 x 10). The core never reassigns them.
- A crew member assigned to a component that is later destroyed keeps referring to it, as in the source. The model does not say when this happens.
- pygame.Rect truncates float arguments toward zero, like the C# `(int)` casts. It is modelled that way.
