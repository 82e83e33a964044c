/**
 * What the crew of a ship does (Crew.cs), stated on values: the three-state agent a crew
 * member is, how one Update moves it, and the greedy pass that sends idle crew to the
 * components that need them.
 */
module CrewSpec {
  import opened Config
  import opened Geometry
  import opened Components
  import opened Lists

  /** Walking speed inside rooms, in world units per second. */
  const MOVE_SPEED_ROOM: real := 50.0

  /** A member closer than this to its post has arrived. */
  const ARRIVAL_RADIUS: real := 5.0

  /** The three states of the source's State string: "idle", "walking", "working". */
  datatype CrewState = Idle | Walking | Working

  /** Everything the simulation can observe of one crew member (the colour is left out). */
  datatype Member = Member(
    id: int, x: real, y: real,
    assignedTo: Component?, target: Component?,
    state: CrewState, work: real)

  /** A member as its constructor builds it: idle, unassigned, no work done. */
  function Recruit(id: int, x: real, y: real): (m: Member)
    ensures m.id == id && m.x == x && m.y == y
    ensures m.assignedTo == null && m.target == null && m.state == Idle && m.work == 0.0
  {
    Member(id, x, y, null, null, Idle, 0.0)
  }

  /** Where a member stands to work at c: the centre of c's cell in world space (heading ignored). */
  function PostX(c: Component, sx: real, gw: int): real {
    sx + (c.gridX as real - gw as real / 2.0) * GRID_SIZE as real
  }

  function PostY(c: Component, sy: real, gh: int): real {
    sy + (c.gridY as real - gh as real / 2.0) * GRID_SIZE as real
  }

  /**
   * MoveToComponent: closer than 5 units, the member snaps to the post, takes the component
   * as its assignment, drops the target and is working; otherwise it walks 50 units per
   * second straight toward the post.
   */
  function Walk(m: Member, c: Component, dt: real, sx: real, sy: real, gw: int, gh: int, trig: Trig): (r: Member)
    ensures r.id == m.id && r.work == m.work
    ensures r.state == Working || r.state == Walking
    ensures r.state == Working ==> r.assignedTo == c && r.target == null && r.x == PostX(c, sx, gw) && r.y == PostY(c, sy, gh)
    ensures r.state == Walking ==> r.assignedTo == m.assignedTo && r.target == m.target
  {
    var tx, ty := PostX(c, sx, gw), PostY(c, sy, gh);
    var dx, dy := tx - m.x, ty - m.y;
    var distance := trig.sqrt(SquaredLength(dx, dy));
    if distance < ARRIVAL_RADIUS then
      m.(x := tx, y := ty, assignedTo := c, target := null, state := Working)
    else
      m.(x := m.x + dx / distance * MOVE_SPEED_ROOM * dt,
         y := m.y + dy / distance * MOVE_SPEED_ROOM * dt,
         state := Walking)
  }

  /** The member's invariant: once it has an assignment it has no pending target. */
  predicate Settled(m: Member) {
    m.assignedTo != null ==> m.target == null
  }

  /**
   * CrewMember.Update: walk while a target other than the assignment is pending, else work at
   * the assignment (progress grows by dt), else stand idle.
   */
  function Step(m: Member, dt: real, sx: real, sy: real, gw: int, gh: int, trig: Trig): (r: Member)
    ensures r.id == m.id
    ensures r.state == Idle <==> m.assignedTo == null && m.target == null
    ensures r.state == Idle ==> r == m.(state := Idle)
    ensures m.assignedTo != null && (m.target == null || m.target == m.assignedTo) ==>
      r == m.(state := Working, work := m.work + dt)
    ensures r.state == Walking ==>
      r.assignedTo == m.assignedTo && r.target == m.target && r.target != null && r.work == m.work
    ensures r.assignedTo != m.assignedTo ==>
      r.assignedTo == m.target && r.target == null && r.state == Working && r.work == m.work &&
      r.x == PostX(m.target, sx, gw) && r.y == PostY(m.target, sy, gh)
    ensures Settled(m) ==> Settled(r)
    ensures Settled(m) && m.assignedTo != null ==> r.assignedTo == m.assignedTo
  {
    if m.target != null && m.assignedTo != m.target then Walk(m, m.target, dt, sx, sy, gw, gh, trig)
    else if m.assignedTo != null then m.(state := Working, work := m.work + dt)
    else m.(state := Idle)
  }

  /** With a sound square root, a member arrives exactly when its squared distance to the post is below 25. */
  lemma ArrivalRadius(m: Member, c: Component, dt: real, sx: real, sy: real, gw: int, gh: int, trig: Trig)
    requires SqrtSound(trig)
    ensures var tx, ty := PostX(c, sx, gw), PostY(c, sy, gh);
      Walk(m, c, dt, sx, sy, gw, gh, trig).state == Working <==>
      SquaredLength(tx - m.x, ty - m.y) < ARRIVAL_RADIUS * ARRIVAL_RADIUS
  {
    var tx, ty := PostX(c, sx, gw), PostY(c, sy, gh);
    var q := SquaredLength(tx - m.x, ty - m.y);
    SquareBelow(q, trig.sqrt(q), ARRIVAL_RADIUS);
  }

  /** Moving a / d of the way at speed v for dt is moving the fraction v dt / d of a. */
  lemma QuotientStep(a: real, d: real, v: real, dt: real)
    requires d != 0.0
    ensures a / d * v * dt == a * (v * dt / d)
  {
  }

  /** Walking the fraction step / d of the way along (dx, dy), whose length is d, leaves d - step. */
  lemma StepAlong(dx: real, dy: real, d: real, step: real)
    requires 0.0 < d && d * d == dx * dx + dy * dy
    ensures var s := step / d;
      (dx - dx * s) * (dx - dx * s) + (dy - dy * s) * (dy - dy * s) == (d - step) * (d - step)
  {
    var s := step / d;
    assert dx - dx * s == dx * (1.0 - s);
    assert dy - dy * s == dy * (1.0 - s);
    ScaledSquares(dx, dy, 1.0 - s);
    ScaledSquares(d, 0.0, 1.0 - s);
    assert d * s == step;
    assert d * (1.0 - s) == d - step;
  }

  /**
   * A walking step goes straight toward the post: with a sound square root, a member at
   * distance d that is still walking ends at squared distance (d - 50 dt)^2, so it has come
   * 50 dt closer when the step is no longer than d.
   */
  lemma WalkClosesDistance(m: Member, c: Component, dt: real, sx: real, sy: real, gw: int, gh: int, trig: Trig)
    requires SqrtSound(trig)
    ensures var tx, ty := PostX(c, sx, gw), PostY(c, sy, gh);
      var d := trig.sqrt(SquaredLength(tx - m.x, ty - m.y));
      var r := Walk(m, c, dt, sx, sy, gw, gh, trig);
      r.state == Walking ==>
        SquaredLength(tx - r.x, ty - r.y) == (d - MOVE_SPEED_ROOM * dt) * (d - MOVE_SPEED_ROOM * dt)
  {
    var tx, ty := PostX(c, sx, gw), PostY(c, sy, gh);
    var dx, dy := tx - m.x, ty - m.y;
    var q := SquaredLength(dx, dy);
    var d := trig.sqrt(q);
    var r := Walk(m, c, dt, sx, sy, gw, gh, trig);
    WalkStep(m, c, dt, sx, sy, gw, gh, trig);
    if r.state == Walking {
      assert 0.0 <= d && d * d == q;
      WalkLeft(dx, dy, d, MOVE_SPEED_ROOM, dt);
    }
  }

  /** A member still walking was at least ARRIVAL_RADIUS away and moved by the unit direction times 50 dt. */
  lemma WalkStep(m: Member, c: Component, dt: real, sx: real, sy: real, gw: int, gh: int, trig: Trig)
    ensures var dx, dy := PostX(c, sx, gw) - m.x, PostY(c, sy, gh) - m.y;
      var d := trig.sqrt(SquaredLength(dx, dy));
      var r := Walk(m, c, dt, sx, sy, gw, gh, trig);
      r.state == Walking ==>
        ARRIVAL_RADIUS <= d &&
        PostX(c, sx, gw) - r.x == dx - dx / d * MOVE_SPEED_ROOM * dt &&
        PostY(c, sy, gh) - r.y == dy - dy / d * MOVE_SPEED_ROOM * dt
  {
  }

  /** A step of v dt along (dx, dy), whose length is d, leaves the squared distance (d - v dt)^2. */
  lemma WalkLeft(dx: real, dy: real, d: real, v: real, dt: real)
    requires 0.0 < d && d * d == SquaredLength(dx, dy)
    ensures SquaredLength(dx - dx / d * v * dt, dy - dy / d * v * dt) == (d - v * dt) * (d - v * dt)
  {
    var step := v * dt;
    QuotientStep(dx, d, v, dt);
    QuotientStep(dy, d, v, dt);
    StepAlong(dx, dy, d, step);
  }

  /** AssignTo: target the component and restart the work progress; nothing else changes. */
  function AssignTo(m: Member, c: Component): (r: Member)
    ensures r.target == c && r.work == 0.0
    ensures r.(target := m.target, work := m.work) == m
  {
    m.(target := c, work := 0.0)
  }

  // ---------------------------------------------------------------- the assignment pass

  /** The component types that need crew: reactors, weapons and engines. */
  predicate IsStation(kind: string) {
    kind == POWER || kind == WEAPON_LASER || kind == WEAPON_CANNON || kind == ENGINE
  }

  /** Reactors need two crew, every other station one. */
  function Required(kind: string): int {
    if kind == POWER then 2 else 1
  }

  /** How many members have arrived at (are assigned to) c; members still walking are not counted. */
  function ArrivedCount(ms: seq<Member>, c: Component): (n: nat)
    ensures n <= |ms|
    ensures n == 0 <==> forall i :: 0 <= i < |ms| ==> ms[i].assignedTo != c
    decreases |ms|
  {
    if ms == [] then 0
    else ArrivedCount(ms[..|ms| - 1], c) + (if ms[|ms| - 1].assignedTo == c then 1 else 0)
  }

  /** Only the assignments matter to the arrived count. */
  lemma {:induction false} ArrivedCountByAssignment(a: seq<Member>, b: seq<Member>, c: Component)
    requires |a| == |b|
    requires forall i :: 0 <= i < |a| ==> a[i].assignedTo == b[i].assignedTo
    ensures ArrivedCount(a, c) == ArrivedCount(b, c)
    decreases |a|
  {
    if a != [] {
      ArrivedCountByAssignment(a[..|a| - 1], b[..|b| - 1], c);
    }
  }

  /** The members the pass may send: idle and without an assignment. */
  predicate Available(m: Member) {
    m.state == Idle && m.assignedTo == null
  }

  /** The indices of the available members, in crew order. */
  function IdleIndices(ms: seq<Member>): (r: seq<nat>)
    ensures forall k :: 0 <= k < |r| ==> r[k] < |ms| && Available(ms[r[k]])
    ensures forall k, l :: 0 <= k < l < |r| ==> r[k] < r[l]
    ensures forall i :: 0 <= i < |ms| && Available(ms[i]) ==> i in r
    decreases |ms|
  {
    if ms == [] then []
    else IdleIndices(ms[..|ms| - 1]) + (if Available(ms[|ms| - 1]) then [|ms| - 1] else [])
  }

  /** A station that has fewer arrived crew than it requires. */
  predicate Understaffed(ms: seq<Member>, c: Component) {
    IsStation(c.kind) && ArrivedCount(ms, c) < Required(c.kind)
  }

  /** The understaffed stations of a component list, in list order. */
  function Needy(ms: seq<Member>, cs: seq<Component>): (r: seq<Component>)
    ensures |r| <= |cs|
    ensures forall k :: 0 <= k < |r| ==> r[k] in cs && Understaffed(ms, r[k])
    ensures forall c :: c in cs && Understaffed(ms, c) ==> c in r
    decreases |cs|
  {
    if cs == [] then []
    else
      var last := cs[|cs| - 1];
      assert cs == cs[..|cs| - 1] + [last];
      Needy(ms, cs[..|cs| - 1]) + (if Understaffed(ms, last) then [last] else [])
  }

  /** A list without repeats has understaffed stations without repeats. */
  lemma {:induction false} NeedyDistinct(ms: seq<Member>, cs: seq<Component>)
    requires Distinct(cs)
    ensures Distinct(Needy(ms, cs))
    decreases |cs|
  {
    if cs != [] {
      var front := cs[..|cs| - 1];
      NeedyDistinct(ms, front);
      var last := cs[|cs| - 1];
      assert last !in front;
    }
  }

  /** Sends member idle[k] to targets[k], in order. */
  function Dispatch(ms: seq<Member>, idle: seq<nat>, targets: seq<Component>): (r: seq<Member>)
    requires |idle| == |targets|
    requires forall k :: 0 <= k < |idle| ==> idle[k] < |ms|
    ensures |r| == |ms|
    decreases |idle|
  {
    if idle == [] then ms
    else
      var n := |idle| - 1;
      var before := Dispatch(ms, idle[..n], targets[..n]);
      before[idle[n] := AssignTo(before[idle[n]], targets[n])]
  }

  /** With distinct indices, each listed member is sent to its target and every other member is untouched. */
  lemma {:induction false} DispatchAt(ms: seq<Member>, idle: seq<nat>, targets: seq<Component>)
    requires |idle| == |targets|
    requires forall k :: 0 <= k < |idle| ==> idle[k] < |ms|
    requires forall k, l :: 0 <= k < l < |idle| ==> idle[k] < idle[l]
    ensures forall k :: 0 <= k < |idle| ==> Dispatch(ms, idle, targets)[idle[k]] == AssignTo(ms[idle[k]], targets[k])
    ensures forall i :: 0 <= i < |ms| && i !in idle ==> Dispatch(ms, idle, targets)[i] == ms[i]
    decreases |idle|
  {
    if idle != [] {
      var n := |idle| - 1;
      DispatchAt(ms, idle[..n], targets[..n]);
      assert idle[n] !in idle[..n];
      forall i | 0 <= i < |ms| && i !in idle
        ensures Dispatch(ms, idle, targets)[i] == ms[i]
      {
        assert i !in idle[..n];
      }
    }
  }

  /** Sending members anywhere leaves every assignment, id and state as it was. */
  lemma {:induction false} DispatchKeepsAssignments(ms: seq<Member>, idle: seq<nat>, targets: seq<Component>)
    requires |idle| == |targets|
    requires forall k :: 0 <= k < |idle| ==> idle[k] < |ms|
    ensures forall i :: 0 <= i < |ms| ==>
      Dispatch(ms, idle, targets)[i].assignedTo == ms[i].assignedTo &&
      Dispatch(ms, idle, targets)[i].id == ms[i].id &&
      Dispatch(ms, idle, targets)[i].state == ms[i].state
    decreases |idle|
  {
    if idle != [] {
      var n := |idle| - 1;
      DispatchKeepsAssignments(ms, idle[..n], targets[..n]);
    }
  }

  /** Dispatching changes no member's assignment, so no station's arrived count. */
  lemma DispatchKeepsCount(ms: seq<Member>, idle: seq<nat>, targets: seq<Component>, c: Component)
    requires |idle| == |targets|
    requires forall k :: 0 <= k < |idle| ==> idle[k] < |ms|
    ensures ArrivedCount(Dispatch(ms, idle, targets), c) == ArrivedCount(ms, c)
  {
    DispatchKeepsAssignments(ms, idle, targets);
    ArrivedCountByAssignment(Dispatch(ms, idle, targets), ms, c);
  }

  /** One more component adds itself to the understaffed stations if it is one. */
  lemma NeedySnoc(ms: seq<Member>, cs: seq<Component>, j: nat)
    requires j < |cs|
    ensures Needy(ms, cs[..j + 1]) == Needy(ms, cs[..j]) + (if Understaffed(ms, cs[j]) then [cs[j]] else [])
  {
    assert cs[..j + 1][..j] == cs[..j];
  }

  /** Dispatching one more member applies its assignment to the members dispatched so far. */
  lemma DispatchSnoc(ms: seq<Member>, idle: seq<nat>, targets: seq<Component>, n: nat)
    requires n < |idle| && n < |targets|
    requires forall k :: 0 <= k < |idle| ==> idle[k] < |ms|
    ensures Dispatch(ms, idle[..n + 1], targets[..n + 1]) ==
      Dispatch(ms, idle[..n], targets[..n])[idle[n] := AssignTo(Dispatch(ms, idle[..n], targets[..n])[idle[n]], targets[n])]
  {
    assert idle[..n + 1][..n] == idle[..n];
    assert targets[..n + 1][..n] == targets[..n];
  }

  function Min(a: int, b: int): int {
    if a <= b then a else b
  }

  /**
   * One component of the pass, on values: the members dispatched so far keep every
   * assignment, so the arrived count the loop reads is the one at the start of the pass; a
   * station short of crew, while members remain, takes the next available member; otherwise
   * the dispatched members stay as they are.
   */
  lemma AssignStep(ms: seq<Member>, cs: seq<Component>, j: nat, used: nat)
    requires j < |cs| && used == Min(|IdleIndices(ms)|, |Needy(ms, cs[..j])|)
    ensures var idle, need, need' := IdleIndices(ms), Needy(ms, cs[..j]), Needy(ms, cs[..j + 1]);
      var cur := Dispatch(ms, idle[..used], need[..used]);
      ArrivedCount(cur, cs[j]) == ArrivedCount(ms, cs[j]) &&
      if Understaffed(ms, cs[j]) && used < |idle| then
        used + 1 == Min(|idle|, |need'|) &&
        Dispatch(ms, idle[..used + 1], need'[..used + 1]) == cur[idle[used] := AssignTo(cur[idle[used]], cs[j])]
      else
        used == Min(|idle|, |need'|) && Dispatch(ms, idle[..used], need'[..used]) == cur
  {
    var idle, need := IdleIndices(ms), Needy(ms, cs[..j]);
    DispatchKeepsCount(ms, idle[..used], need[..used], cs[j]);
    NeedySnoc(ms, cs, j);
    if Understaffed(ms, cs[j]) && used < |idle| {
      ServeStep(ms, idle, need, cs[j], used);
    } else {
      SkipStep(ms, idle, need, Needy(ms, cs[..j + 1]), used);
    }
  }

  /** AssignStep's station that is short of crew while members remain: it takes the next one. */
  lemma ServeStep(ms: seq<Member>, idle: seq<nat>, need: seq<Component>, c: Component, used: nat)
    requires forall k :: 0 <= k < |idle| ==> idle[k] < |ms|
    requires used == Min(|idle|, |need|) && used < |idle|
    ensures var cur := Dispatch(ms, idle[..used], need[..used]);
      used + 1 == Min(|idle|, |need + [c]|) &&
      Dispatch(ms, idle[..used + 1], (need + [c])[..used + 1]) == cur[idle[used] := AssignTo(cur[idle[used]], c)]
  {
    var need' := need + [c];
    assert need'[..used] == need[..used];
    DispatchSnoc(ms, idle, need', used);
  }

  /** AssignStep's other components: the members dispatched so far stay as they are. */
  lemma SkipStep(ms: seq<Member>, idle: seq<nat>, need: seq<Component>, need': seq<Component>, used: nat)
    requires forall k :: 0 <= k < |idle| ==> idle[k] < |ms|
    requires used == Min(|idle|, |need|) && |need| <= |need'| && need'[..|need|] == need
    requires used == |idle| || need' == need
    ensures used == Min(|idle|, |need'|) && Dispatch(ms, idle[..used], need'[..used]) == Dispatch(ms, idle[..used], need[..used])
  {
    assert need'[..used] == need[..used];
  }

  /** The members one pass sends: the first available ones, as many as there are understaffed stations. */
  function Sent(ms: seq<Member>, cs: seq<Component>): seq<nat> {
    var idle := IdleIndices(ms);
    idle[..Min(|idle|, |Needy(ms, cs)|)]
  }

  /** The stations one pass serves: the first understaffed ones, as many as there are available members. */
  function Served(ms: seq<Member>, cs: seq<Component>): seq<Component> {
    var need := Needy(ms, cs);
    need[..Min(|IdleIndices(ms)|, |need|)]
  }

  /** AssignIdleCrew: the k-th available member (crew order) is sent to the k-th understaffed station (list order). */
  function AssignIdle(ms: seq<Member>, cs: seq<Component>): seq<Member> {
    Dispatch(ms, Sent(ms, cs), Served(ms, cs))
  }

  /**
   * One pass sends no more members than were available, never the same member twice, at
   * most one member to each component of a repeat-free list, and only to stations short of
   * arrived crew; a sent member only gains the target (work restarts at 0), nobody else
   * changes, and no assignment changes.
   */
  lemma AssignIdleEffect(ms: seq<Member>, cs: seq<Component>)
    ensures |Sent(ms, cs)| == |Served(ms, cs)| == Min(|IdleIndices(ms)|, |Needy(ms, cs)|)
    ensures |Sent(ms, cs)| <= |IdleIndices(ms)|
    ensures forall k, l :: 0 <= k < l < |Sent(ms, cs)| ==> Sent(ms, cs)[k] < Sent(ms, cs)[l]
    ensures Distinct(cs) ==> Distinct(Served(ms, cs))
    ensures forall k :: 0 <= k < |Served(ms, cs)| ==>
      Served(ms, cs)[k] in cs && IsStation(Served(ms, cs)[k].kind) &&
      ArrivedCount(ms, Served(ms, cs)[k]) < Required(Served(ms, cs)[k].kind)
    ensures forall k :: 0 <= k < |Sent(ms, cs)| ==>
      Available(ms[Sent(ms, cs)[k]]) &&
      AssignIdle(ms, cs)[Sent(ms, cs)[k]] == AssignTo(ms[Sent(ms, cs)[k]], Served(ms, cs)[k])
    ensures |AssignIdle(ms, cs)| == |ms|
    ensures forall i :: 0 <= i < |ms| && i !in Sent(ms, cs) ==> AssignIdle(ms, cs)[i] == ms[i]
    ensures forall i :: 0 <= i < |ms| ==>
      AssignIdle(ms, cs)[i].assignedTo == ms[i].assignedTo && AssignIdle(ms, cs)[i].id == ms[i].id &&
      AssignIdle(ms, cs)[i].state == ms[i].state
  {
    PassShape(ms, cs);
    PassSends(ms, cs);
    DispatchKeepsAssignments(ms, Sent(ms, cs), Served(ms, cs));
  }

  /** AssignIdleEffect's counting half: who may be sent, and where. */
  lemma PassShape(ms: seq<Member>, cs: seq<Component>)
    ensures |Sent(ms, cs)| == |Served(ms, cs)| == Min(|IdleIndices(ms)|, |Needy(ms, cs)|)
    ensures forall k, l :: 0 <= k < l < |Sent(ms, cs)| ==> Sent(ms, cs)[k] < Sent(ms, cs)[l]
    ensures Distinct(cs) ==> Distinct(Served(ms, cs))
  {
    if Distinct(cs) {
      NeedyDistinct(ms, cs);
    }
  }

  /** AssignIdleEffect's dispatch half: the sent members get their stations and nobody else changes. */
  lemma PassSends(ms: seq<Member>, cs: seq<Component>)
    ensures |Sent(ms, cs)| == |Served(ms, cs)| && forall k :: 0 <= k < |Sent(ms, cs)| ==> Sent(ms, cs)[k] < |ms|
    ensures forall k :: 0 <= k < |Sent(ms, cs)| ==>
      AssignIdle(ms, cs)[Sent(ms, cs)[k]] == AssignTo(ms[Sent(ms, cs)[k]], Served(ms, cs)[k])
    ensures forall i :: 0 <= i < |ms| && i !in Sent(ms, cs) ==> AssignIdle(ms, cs)[i] == ms[i]
  {
    DispatchAt(ms, Sent(ms, cs), Served(ms, cs));
  }

  /** Stations that already have their crew get nobody, and neither does any other component type. */
  lemma StaffedGetNone(ms: seq<Member>, cs: seq<Component>, c: Component)
    requires !IsStation(c.kind) || Required(c.kind) <= ArrivedCount(ms, c)
    ensures c !in Served(ms, cs)
  {
    AssignIdleEffect(ms, cs);
  }

  /**
   * Walking crew are not counted: an engine (which needs one crew member) with one member
   * already walking to it still receives the next idle member.
   */
  lemma WalkersAreNotCounted(e: Component, walker: Member, idle: Member)
    requires e.kind == ENGINE
    requires walker == Member(0, 0.0, 0.0, null, e, Walking, 0.0)
    requires idle == Recruit(1, 0.0, 0.0)
    ensures AssignIdle([walker, idle], [e]) == [walker, AssignTo(idle, e)]
  {
    WalkerExamplePass(e, walker, idle);
    assert [1][..0] == [] && [e][..0] == [];
  }

  /** In WalkersAreNotCounted's crew, the engine counts as understaffed and the idle member is the one sent. */
  lemma WalkerExamplePass(e: Component, walker: Member, idle: Member)
    requires e.kind == ENGINE
    requires walker == Member(0, 0.0, 0.0, null, e, Walking, 0.0)
    requires idle == Recruit(1, 0.0, 0.0)
    ensures Sent([walker, idle], [e]) == [1] && Served([walker, idle], [e]) == [e]
  {
    var ms := [walker, idle];
    assert ms[..1] == [walker];
    assert ms[..1][..0] == [];
    assert ArrivedCount(ms, e) == 0;
    assert IdleIndices(ms) == [1] by {
      assert IdleIndices(ms[..1]) == [];
    }
    assert [e][..0] == [];
    assert Needy(ms, [e]) == [e];
  }

  // ---------------------------------------------------------------- the manager's tick and counts

  /** The manager's loop: every member takes one Update, in crew order. */
  function StepAll(ms: seq<Member>, dt: real, sx: real, sy: real, gw: int, gh: int, trig: Trig): (r: seq<Member>)
    ensures |r| == |ms|
    ensures forall i :: 0 <= i < |ms| ==> r[i] == Step(ms[i], dt, sx, sy, gw, gh, trig)
  {
    seq(|ms|, i requires 0 <= i < |ms| => Step(ms[i], dt, sx, sy, gw, gh, trig))
  }

  /** Members created together by AddCrew: consecutive ids from `first`, all at the same position. */
  function Recruits(first: int, count: int, x: real, y: real): (r: seq<Member>)
    ensures |r| == if count < 0 then 0 else count
    ensures forall k :: 0 <= k < |r| ==> r[k] == Recruit(first + k, x, y)
  {
    seq(if count < 0 then 0 else count, k => Recruit(first + k, x, y))
  }

  /** One more recruit is appended at the end with the next id. */
  lemma RecruitsSnoc(first: int, i: nat, x: real, y: real)
    ensures Recruits(first, i + 1, x, y) == Recruits(first, i, x, y) + [Recruit(first + i, x, y)]
  {
  }

  /** The manager's id invariant: ids are pairwise distinct and below the next id to hand out. */
  predicate UniqueIds(ms: seq<Member>, next: int) {
    (forall i :: 0 <= i < |ms| ==> ms[i].id < next) &&
    (forall i, j :: 0 <= i < j < |ms| ==> ms[i].id != ms[j].id)
  }

  /** Adding recruits keeps ids unique; so does any change that keeps every member's id. */
  lemma RecruitsKeepIdsUnique(ms: seq<Member>, next: int, count: int, x: real, y: real)
    requires UniqueIds(ms, next)
    ensures UniqueIds(ms + Recruits(next, count, x, y), next + |Recruits(next, count, x, y)|)
  {
  }

  lemma SameIdsKeepUnique(a: seq<Member>, b: seq<Member>, next: int)
    requires UniqueIds(a, next) && |a| == |b|
    requires forall i :: 0 <= i < |a| ==> a[i].id == b[i].id
    ensures UniqueIds(b, next)
  {
  }

  /** The count getters: how many members are in a given state. */
  function CountState(ms: seq<Member>, s: CrewState): (n: nat)
    ensures n <= |ms|
    ensures n == 0 <==> forall i :: 0 <= i < |ms| ==> ms[i].state != s
    decreases |ms|
  {
    if ms == [] then 0
    else CountState(ms[..|ms| - 1], s) + (if ms[|ms| - 1].state == s then 1 else 0)
  }

  /** Every member is in exactly one state, so the idle and working counts add up to at most the total. */
  lemma {:induction false} StatesPartitionCrew(ms: seq<Member>)
    ensures CountState(ms, Idle) + CountState(ms, Walking) + CountState(ms, Working) == |ms|
    ensures CountState(ms, Idle) + CountState(ms, Working) <= |ms|
    decreases |ms|
  {
    if ms != [] {
      StatesPartitionCrew(ms[..|ms| - 1]);
    }
  }

  /**
   * After the members' updates, an idle member has neither assignment nor target, so it is
   * exactly the kind of member the assignment pass may send.
   */
  lemma SteppedIdleIsAvailable(ms: seq<Member>, dt: real, sx: real, sy: real, gw: int, gh: int, trig: Trig, i: nat)
    requires i < |ms|
    requires StepAll(ms, dt, sx, sy, gw, gh, trig)[i].state == Idle
    ensures Available(StepAll(ms, dt, sx, sy, gw, gh, trig)[i])
    ensures StepAll(ms, dt, sx, sy, gw, gh, trig)[i].target == null
  {
  }
}
