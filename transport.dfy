/**
  Ore particles: when a miner emits one, how one moves, is steered by
  conveyors and is taken in by a furnace during one frame.

  Particle positions, directions and times are reals; distances are compared
  squared (a distance d is within radius r when d * d <= r * r).
*/
module Transport {
  import opened Wrappers
  import opened Geometry
  import opened Registry

  /** A point or direction of the ground plane in real world coordinates (y = 0). */
  datatype Point = Point(x: real, z: real)

  /** An ore particle in flight: where it started, where it is, where it heads, when it appeared. */
  datatype Particle = Particle(initial: Point, pos: Point, dir: Point, spawnTime: real)

  /** A miner emits ore only when more than this many seconds have passed since its last emission. */
  const SpawnInterval: real := 5.0

  /** Particle speed in world units per second. */
  const Speed: real := 1.0

  /** Squared capture radius of a conveyor or furnace cell: (GridSize / 6)^2. */
  const NearRadius2: real := (GridSize as real / 6.0) * (GridSize as real / 6.0)

  /** Squared look-ahead radius of a conveyor: GridSize^2. */
  const LookRadius2: real := GridSize as real * GridSize as real

  function ToPoint(c: Cell): Point
  {
    Point(c.x as real, c.z as real)
  }

  function Dist2(a: Point, b: Point): real
  {
    (a.x - b.x) * (a.x - b.x) + (a.z - b.z) * (a.z - b.z)
  }

  /** The direction ore moves in out of a miner and along a conveyor: (-f.y, f.x) of the forward vector. */
  function FlowDirection(q: Quarter): Point
  {
    var d := Perp(Forward(q));
    Point(d.x as real, d.y as real)
  }

  /** Flow directions are axis-aligned unit vectors. */
  lemma FlowDirectionIsUnit(q: Quarter)
    ensures var d := FlowDirection(q); d.x * d.x + d.z * d.z == 1.0
    ensures var d := FlowDirection(q); d == Point(0.0, 1.0) || d == Point(1.0, 0.0) || d == Point(0.0, -1.0) || d == Point(-1.0, 0.0)
  {
    ForwardTable(q);
  }

  // ---------------------------------------------------------------------------
  // Emission
  // ---------------------------------------------------------------------------

  /** Some conveyor is stored exactly at cell c. */
  predicate ConveyorAt(objs: seq<Building>, c: Cell)
  {
    exists k :: 0 <= k < |objs| && objs[k].Kind() == Conveyor && objs[k].pos == c
  }

  /** The miner b emits at time now: its timer has run out and a conveyor sits on its anchor. */
  predicate Fires(objs: seq<Building>, b: Building, now: real)
  {
    && b.body.MinerBody?
    && now - b.body.lastSpawnTime > SpawnInterval
    && ConveyorAt(objs, MinerAnchor(b.pos, b.rot))
  }

  /** The particle a miner emits: at its outlet, heading along the miner's own flow direction. */
  function Emitted(b: Building, now: real): Particle
  {
    var start := ToPoint(MinerOutlet(b.pos, b.rot));
    Particle(start, start, FlowDirection(b.rot), now)
  }

  /** Where an emitted particle starts and heads, as the emission code composes them. */
  lemma EmittedGeometry(b: Building, now: real)
    ensures var p, a, d := Emitted(b, now), ToPoint(MinerAnchor(b.pos, b.rot)), FlowDirection(b.rot);
      p.pos == p.initial && p.spawnTime == now && p.dir == d
      && p.pos == Point(a.x - d.x * GridSize as real, a.z - d.z * GridSize as real)
    ensures MinerOutlet(b.pos, b.rot) in MinerFootprint(b.pos, b.rot)
  {
    MinerAnchorBesideFootprint(b.pos, b.rot);
  }

  /** A building after the emission pass: a miner that fires has its timer set to now. */
  function AfterEmission(objs: seq<Building>, b: Building, now: real): Building
  {
    if Fires(objs, b, now) then b.(body := MinerBody(now)) else b
  }

  /**
    The registry after the emission pass: the layout stays, a firing miner's
    timer reads now, and every other building is left as it was.
  */
  function EmissionObjects(objs: seq<Building>, now: real): (r: seq<Building>)
    ensures SameLayout(objs, r)
    ensures forall k :: 0 <= k < |objs| && Fires(objs, objs[k], now) ==> r[k].body == MinerBody(now)
    ensures forall k :: 0 <= k < |objs| && !Fires(objs, objs[k], now) ==> r[k] == objs[k]
  {
    seq(|objs|, k requires 0 <= k < |objs| => AfterEmission(objs, objs[k], now))
  }

  /** The particles the first n buildings emit, in registry order. */
  function EmittedBy(objs: seq<Building>, n: nat, now: real): seq<Particle>
    requires n <= |objs|
  {
    if n == 0 then []
    else EmittedBy(objs, n - 1, now) + (if Fires(objs, objs[n - 1], now) then [Emitted(objs[n - 1], now)] else [])
  }

  /** The indices below n of the miners that fire at time now. */
  ghost function FiringBelow(objs: seq<Building>, n: nat, now: real): set<nat>
    requires n <= |objs|
  {
    set k: nat | k < n && Fires(objs, objs[k], now)
  }

  /** Going one building further adds that building's index when it fires. */
  lemma FiringBelowStep(objs: seq<Building>, n: nat, now: real)
    requires 0 < n <= |objs|
    ensures |FiringBelow(objs, n, now)| ==
      |FiringBelow(objs, n - 1, now)| + (if Fires(objs, objs[n - 1], now) then 1 else 0)
  {
    var prev := FiringBelow(objs, n - 1, now);
    var fired: set<nat> := if Fires(objs, objs[n - 1], now) then {n - 1} else {};
    assert FiringBelow(objs, n, now) == prev + fired;
    assert n - 1 !in prev;
  }

  /** The pass emits one particle per firing miner below n. */
  lemma {:induction false} EmittedByCount(objs: seq<Building>, n: nat, now: real)
    requires n <= |objs|
    ensures |EmittedBy(objs, n, now)| == |FiringBelow(objs, n, now)| <= n
  {
    if n == 0 {
      assert FiringBelow(objs, 0, now) == {};
    } else {
      EmittedByCount(objs, n - 1, now);
      FiringBelowStep(objs, n, now);
    }
  }

  /** Every particle emitted below n comes from a firing miner below n. */
  lemma {:induction false} EmittedByFromFiring(objs: seq<Building>, n: nat, now: real)
    requires n <= |objs|
    ensures forall m :: 0 <= m < |EmittedBy(objs, n, now)| ==>
      exists k :: 0 <= k < n && Fires(objs, objs[k], now) && EmittedBy(objs, n, now)[m] == Emitted(objs[k], now)
  {
    if n > 0 {
      EmittedByFromFiring(objs, n - 1, now);
      var es, es' := EmittedBy(objs, n - 1, now), EmittedBy(objs, n, now);
      assert forall m :: 0 <= m < |es| ==>
        exists k :: 0 <= k < n - 1 && Fires(objs, objs[k], now) && es[m] == Emitted(objs[k], now);
      assert es' == es + (if Fires(objs, objs[n - 1], now) then [Emitted(objs[n - 1], now)] else []);
      forall m | 0 <= m < |es'|
        ensures exists k :: 0 <= k < n && Fires(objs, objs[k], now) && es'[m] == Emitted(objs[k], now)
      {
        if m < |es| {
          var k :| 0 <= k < n - 1 && Fires(objs, objs[k], now) && es[m] == Emitted(objs[k], now);
          assert es'[m] == es[m];
        } else {
          assert es'[m] == Emitted(objs[n - 1], now);
        }
      }
      assert forall m :: 0 <= m < |EmittedBy(objs, n, now)| ==>
        exists k :: 0 <= k < n && Fires(objs, objs[k], now) && EmittedBy(objs, n, now)[m] == Emitted(objs[k], now);
    } else {
      assert EmittedBy(objs, n, now) == [];
    }
  }

  /** Every firing miner below n has its particle among those emitted. */
  lemma {:induction false} FiringEmits(objs: seq<Building>, n: nat, now: real)
    requires n <= |objs|
    ensures forall k :: 0 <= k < n && Fires(objs, objs[k], now) ==> Emitted(objs[k], now) in EmittedBy(objs, n, now)
  {
    if n > 0 {
      FiringEmits(objs, n - 1, now);
      var es, es' := EmittedBy(objs, n - 1, now), EmittedBy(objs, n, now);
      assert es' == es + (if Fires(objs, objs[n - 1], now) then [Emitted(objs[n - 1], now)] else []);
      forall k | 0 <= k < n && Fires(objs, objs[k], now)
        ensures Emitted(objs[k], now) in es'
      {
        if k < n - 1 {
          var m :| 0 <= m < |es| && es[m] == Emitted(objs[k], now);
          assert es'[m] == es[m];
        } else {
          assert es'[|es|] == Emitted(objs[k], now);
        }
      }
    }
  }

  /**
    The emission pass emits exactly one particle per firing miner and nothing
    else: as many particles as miners fire, each one from a firing miner, and
    every firing miner's particle among them.
  */
  lemma EmittedByMiners(objs: seq<Building>, n: nat, now: real)
    requires n <= |objs|
    ensures |EmittedBy(objs, n, now)| == |FiringBelow(objs, n, now)| <= n
    ensures forall m :: 0 <= m < |EmittedBy(objs, n, now)| ==>
      exists k :: 0 <= k < n && Fires(objs, objs[k], now) && EmittedBy(objs, n, now)[m] == Emitted(objs[k], now)
    ensures forall k :: 0 <= k < n && Fires(objs, objs[k], now) ==> Emitted(objs[k], now) in EmittedBy(objs, n, now)
  {
    EmittedByCount(objs, n, now);
    EmittedByFromFiring(objs, n, now);
    FiringEmits(objs, n, now);
  }

  /** Emission changes no building's id, kind, position or rotation. */
  lemma EmissionKeepsLayout(objs: seq<Building>, now: real)
    ensures SameLayout(objs, EmissionObjects(objs, now))
  {
  }

  // ---------------------------------------------------------------------------
  // Transport
  // ---------------------------------------------------------------------------

  /** Two registries hold the same buildings, kinds, positions and rotations, payloads aside. */
  ghost predicate SameLayout(objs: seq<Building>, objs': seq<Building>)
  {
    |objs'| == |objs| &&
    forall k :: 0 <= k < |objs| ==>
      objs'[k].id == objs[k].id && objs'[k].pos == objs[k].pos && objs'[k].rot == objs[k].rot
      && objs'[k].Kind() == objs[k].Kind()
  }

  function Advance(p: Point, d: Point, dt: real): Point
  {
    Point(p.x + d.x * dt * Speed, p.z + d.z * dt * Speed)
  }

  /** What the conveyor scan decides for a particle. */
  datatype Route =
    | Redirect(dir: Point)   // within capture radius of a conveyor: turn to its flow direction
    | Glide                  // heading into look-ahead radius of a conveyor: keep going
    | OffPath                // no conveyor in reach

  /** The particle at pos is within capture radius of the conveyor b. */
  predicate Captures(b: Building, pos: Point)
  {
    b.Kind() == Conveyor && Dist2(pos, ToPoint(b.pos)) <= NearRadius2
  }

  /** The particle's next position look is within look-ahead radius of the conveyor b. */
  predicate LooksAt(b: Building, look: Point)
  {
    b.Kind() == Conveyor && Dist2(look, ToPoint(b.pos)) <= LookRadius2
  }

  /** The conveyor scan from index k on: the first conveyor in reach decides. */
  function RouteFrom(objs: seq<Building>, k: nat, pos: Point, look: Point): Route
    decreases |objs| - k
  {
    if k >= |objs| then OffPath
    else if Captures(objs[k], pos) then Redirect(FlowDirection(objs[k].rot))
    else if LooksAt(objs[k], look) then Glide
    else RouteFrom(objs, k + 1, pos, look)
  }

  /** Building c is the first from index k on that is a conveyor in reach of the particle. */
  ghost predicate DecidesRoute(objs: seq<Building>, k: nat, c: int, pos: Point, look: Point)
  {
    && k <= c < |objs| && (Captures(objs[c], pos) || LooksAt(objs[c], look))
    && forall j :: k <= j < c ==> !Captures(objs[j], pos) && !LooksAt(objs[j], look)
  }

  /**
    What the scan decides: the first conveyor in reach turns the particle to
    its own flow direction when it captures it, and otherwise only keeps the
    particle on the belt; with no conveyor in reach the particle is off path.
  */
  lemma {:induction false} RouteMeaning(objs: seq<Building>, k: nat, pos: Point, look: Point)
    decreases |objs| - k
    ensures var r := RouteFrom(objs, k, pos, look);
      r.Redirect? ==> exists c :: DecidesRoute(objs, k, c, pos, look) && Captures(objs[c], pos) && r.dir == FlowDirection(objs[c].rot)
    ensures RouteFrom(objs, k, pos, look).Glide? ==>
      exists c :: DecidesRoute(objs, k, c, pos, look) && !Captures(objs[c], pos)
    ensures RouteFrom(objs, k, pos, look).OffPath? <==>
      forall j :: k <= j < |objs| ==> !Captures(objs[j], pos) && !LooksAt(objs[j], look)
  {
    if k < |objs| {
      if Captures(objs[k], pos) || LooksAt(objs[k], look) {
        assert DecidesRoute(objs, k, k, pos, look);
      } else {
        RouteMeaning(objs, k + 1, pos, look);
        var r := RouteFrom(objs, k + 1, pos, look);
        if !r.OffPath? {
          var c :| DecidesRoute(objs, k + 1, c, pos, look);
          assert DecidesRoute(objs, k, c, pos, look);
        }
      }
    }
  }

  /** Some cell of cells is within capture radius of pos. */
  predicate NearAny(cells: seq<Cell>, pos: Point)
  {
    exists c :: 0 <= c < |cells| && Dist2(ToPoint(cells[c]), pos) <= NearRadius2
  }

  /** The furnace b takes in a particle at pos. */
  predicate Takes(b: Building, pos: Point)
  {
    b.Kind() == Furnace && NearAny(FurnaceFootprint(b.pos, b.rot), pos)
  }

  /** The first furnace from index k on that takes in the particle at pos. */
  function FurnaceHit(objs: seq<Building>, k: nat, pos: Point): (r: Option<nat>)
    decreases |objs| - k
    ensures r.Some? ==>
      (k <= r.value < |objs| && Takes(objs[r.value], pos) && forall j :: k <= j < r.value ==> !Takes(objs[j], pos))
    ensures r.None? <==> forall j :: k <= j < |objs| ==> !Takes(objs[j], pos)
  {
    if k >= |objs| then None
    else if Takes(objs[k], pos) then Some(k)
    else FurnaceHit(objs, k + 1, pos)
  }

  /** A particle's move in one frame: it advances, then the conveyor scan may turn it. */
  function Step(objs: seq<Building>, p: Particle, dt: real): (Particle, Route)
  {
    var pos := Advance(p.pos, p.dir, dt);
    var route := RouteFrom(objs, 0, pos, Advance(pos, p.dir, dt));
    (p.(pos := pos, dir := if route.Redirect? then route.dir else p.dir), route)
  }

  /** ps without its element i. */
  function Erase<T>(ps: seq<T>, i: nat): (r: seq<T>)
    requires i < |ps|
    ensures |r| == |ps| - 1
    ensures forall j :: 0 <= j < i ==> r[j] == ps[j]
    ensures forall j :: i <= j < |r| ==> r[j] == ps[j + 1]
  {
    ps[..i] + ps[i + 1..]
  }

  /** The furnace at index k with the arrival time now appended to its ore. */
  function AddOre(objs: seq<Building>, k: nat, now: real): seq<Building>
    requires k < |objs| && objs[k].Kind() == Furnace
  {
    objs[k := objs[k].(body := objs[k].body.(ore := objs[k].body.ore + [now]))]
  }

  /** What one frame does to one particle. */
  datatype Fate =
    | Dropped                 // no conveyor in reach: it fell off the belt
    | Consumed(furnace: nat)  // on path, and taken in by the furnace at this registry index
    | Kept(moved: Particle)   // on path and not taken in: it stays, moved and perhaps turned

  /** The fate of particle p this frame: move, scan the conveyors, then the furnaces. */
  function FateOf(objs: seq<Building>, p: Particle, dt: real): (r: Fate)
    ensures r.Consumed? ==> r.furnace < |objs| && objs[r.furnace].Kind() == Furnace
  {
    var (q, route) := Step(objs, p, dt);
    if route.OffPath? then Dropped
    else match FurnaceHit(objs, 0, q.pos)
      case Some(k) => Consumed(k)
      case None => Kept(q)
  }

  /**
    What a fate means. After its move, a particle is dropped exactly when no
    conveyor is in reach; it is consumed by furnace k only when some conveyor is
    in reach and k is the first furnace that takes it in. A kept particle has
    advanced along its old direction, keeps its start point and spawn time, is
    in reach of no furnace, and heads either its old way or along the flow of
    the first conveyor in reach, which then captures it.
  */
  lemma FateMeaning(objs: seq<Building>, p: Particle, dt: real)
    ensures var pos := Advance(p.pos, p.dir, dt);
      var look := Advance(pos, p.dir, dt);
      FateOf(objs, p, dt).Dropped? <==> forall j :: 0 <= j < |objs| ==> !Captures(objs[j], pos) && !LooksAt(objs[j], look)
    ensures var pos := Advance(p.pos, p.dir, dt);
      var look, r := Advance(pos, p.dir, dt), FateOf(objs, p, dt);
      r.Consumed? ==>
        && (exists c :: DecidesRoute(objs, 0, c, pos, look))
        && Takes(objs[r.furnace], pos) && forall j :: 0 <= j < r.furnace ==> !Takes(objs[j], pos)
    ensures var pos := Advance(p.pos, p.dir, dt);
      var look, r := Advance(pos, p.dir, dt), FateOf(objs, p, dt);
      r.Kept? ==>
        && r.moved == p.(pos := pos, dir := r.moved.dir)
        && (forall j :: 0 <= j < |objs| ==> !Takes(objs[j], pos))
        && (r.moved.dir == p.dir ||
              exists c :: (DecidesRoute(objs, 0, c, pos, look) && Captures(objs[c], pos) && r.moved.dir == FlowDirection(objs[c].rot)))
  {
    var pos := Advance(p.pos, p.dir, dt);
    RouteMeaning(objs, 0, pos, Advance(pos, p.dir, dt));
  }

  /** The registry and the particle list after (part of) a transport pass. */
  datatype Flow = Flow(objects: seq<Building>, particles: seq<Particle>)

  /** Carry out a fate on slot i: erase the particle, or record the arrival and erase it, or store the move. */
  function Apply(objs: seq<Building>, ps: seq<Particle>, i: nat, fate: Fate, now: real): Flow
    requires i < |ps|
    requires fate.Consumed? ==> fate.furnace < |objs| && objs[fate.furnace].Kind() == Furnace
  {
    match fate
    case Dropped => Flow(objs, Erase(ps, i))
    case Consumed(k) => Flow(AddOre(objs, k, now), Erase(ps, i))
    case Kept(q) => Flow(objs, ps[i := q])
  }

  /**
    The transport pass from list index i on. A particle that is erased leaves
    its slot to the next one, and the index moves on all the same, so that
    next particle waits for the following frame.
  */
  function TransportFrom(objs: seq<Building>, ps: seq<Particle>, i: nat, now: real, dt: real): Flow
    decreases |ps| - i
  {
    if i >= |ps| then Flow(objs, ps)
    else
      var g := Apply(objs, ps, i, FateOf(objs, ps[i], dt), now);
      TransportFrom(g.objects, g.particles, i + 1, now, dt)
  }

  /** The number of ore arrivals recorded by all furnaces together. */
  function TotalOre(objs: seq<Building>): nat
  {
    if |objs| == 0 then 0
    else (if objs[0].body.FurnaceBody? then |objs[0].body.ore| else 0) + TotalOre(objs[1..])
  }

  /** Recording one arrival adds exactly one to the total. */
  lemma {:induction false} AddOreCounts(objs: seq<Building>, k: nat, now: real)
    requires k < |objs| && objs[k].Kind() == Furnace
    ensures TotalOre(AddOre(objs, k, now)) == TotalOre(objs) + 1
  {
    if k > 0 {
      AddOreCounts(objs[1..], k - 1, now);
      assert AddOre(objs, k, now)[1..] == AddOre(objs[1..], k - 1, now);
    }
  }

  /**
    objs' is objs after furnaces recorded arrivals at time now: same layout,
    miners and conveyors unchanged, each furnace's ore extended by copies of now.
  */
  ghost predicate OreAppended(objs: seq<Building>, objs': seq<Building>, now: real)
  {
    SameLayout(objs, objs') &&
    forall k :: 0 <= k < |objs| ==>
      if objs[k].body.FurnaceBody? then
        objs'[k].body.coal == objs[k].body.coal && objs[k].body.ore <= objs'[k].body.ore
        && forall t :: |objs[k].body.ore| <= t < |objs'[k].body.ore| ==> objs'[k].body.ore[t] == now
      else objs'[k] == objs[k]
  }

  lemma OreAppendedTrans(a: seq<Building>, b: seq<Building>, c: seq<Building>, now: real)
    requires OreAppended(a, b, now) && OreAppended(b, c, now)
    ensures OreAppended(a, c, now)
  {
    forall k | 0 <= k < |a| && a[k].body.FurnaceBody?
      ensures a[k].body.ore <= c[k].body.ore
      ensures forall t :: |a[k].body.ore| <= t < |c[k].body.ore| ==> c[k].body.ore[t] == now
    {
      var o1, o2, o3 := a[k].body.ore, b[k].body.ore, c[k].body.ore;
      assert forall t :: |o1| <= t < |o3| ==> o3[t] == now by {
        forall t | |o1| <= t < |o3| ensures o3[t] == now {
          if t < |o2| { assert o3[t] == o2[t]; }
        }
      }
    }
  }

  /** The conveyor scan reads only kinds, positions and rotations, so recorded ore does not sway it. */
  lemma {:induction false} RouteIgnoresPayload(objs: seq<Building>, objs': seq<Building>, k: nat, pos: Point, look: Point)
    requires SameLayout(objs, objs')
    decreases |objs| - k
    ensures RouteFrom(objs', k, pos, look) == RouteFrom(objs, k, pos, look)
  {
    if k < |objs| {
      var b, b' := objs[k], objs'[k];
      assert Captures(b', pos) == Captures(b, pos) && LooksAt(b', look) == LooksAt(b, look) by {
        assert b'.pos == b.pos && b'.Kind() == b.Kind();
      }
      RouteIgnoresPayload(objs, objs', k + 1, pos, look);
    }
  }

  /** The furnace scan reads only kinds, positions and rotations, so recorded ore does not sway it. */
  lemma {:induction false} FurnaceHitIgnoresPayload(objs: seq<Building>, objs': seq<Building>, k: nat, pos: Point)
    requires SameLayout(objs, objs')
    decreases |objs| - k
    ensures FurnaceHit(objs', k, pos) == FurnaceHit(objs, k, pos)
  {
    if k < |objs| {
      var b, b' := objs[k], objs'[k];
      assert Takes(b', pos) == Takes(b, pos) by {
        assert b'.pos == b.pos && b'.rot == b.rot && b'.Kind() == b.Kind();
      }
      FurnaceHitIgnoresPayload(objs, objs', k + 1, pos);
    }
  }

  /** A whole step reads the registry only through the two scans. */
  lemma StepIgnoresPayload(objs: seq<Building>, objs': seq<Building>, p: Particle, dt: real)
    requires SameLayout(objs, objs')
    ensures Step(objs', p, dt) == Step(objs, p, dt)
    ensures FurnaceHit(objs', 0, Step(objs, p, dt).0.pos) == FurnaceHit(objs, 0, Step(objs, p, dt).0.pos)
  {
    var pos := Advance(p.pos, p.dir, dt);
    RouteIgnoresPayload(objs, objs', 0, pos, Advance(pos, p.dir, dt));
    FurnaceHitIgnoresPayload(objs, objs', 0, Step(objs, p, dt).0.pos);
  }

  /**
    A particle the pass leaves in the list is either untouched, or was moved on
    path, possibly turned by a conveyor, and not taken in by any furnace.
  */
  ghost predicate KeptAs(objs: seq<Building>, p: Particle, out: Particle, dt: real)
  {
    out == p || FateOf(objs, p, dt) == Kept(out)
  }

  /** The fate of a particle reads only kinds, positions and rotations. */
  lemma FateIgnoresPayload(objs: seq<Building>, objs': seq<Building>, p: Particle, dt: real)
    requires SameLayout(objs, objs')
    ensures FateOf(objs', p, dt) == FateOf(objs, p, dt)
  {
    StepIgnoresPayload(objs, objs', p, dt);
  }

  /** One slot: what Apply does to the registry and to the list. */
  lemma ApplyFacts(objs: seq<Building>, ps: seq<Particle>, i: nat, fate: Fate, now: real)
    requires i < |ps|
    requires fate.Consumed? ==> fate.furnace < |objs| && objs[fate.furnace].Kind() == Furnace
    ensures var g := Apply(objs, ps, i, fate, now);
      && OreAppended(objs, g.objects, now)
      && TotalOre(g.objects) == TotalOre(objs) + (if fate.Consumed? then 1 else 0)
      && |g.particles| == (if fate.Kept? then |ps| else |ps| - 1)
      && g.particles[..i] == ps[..i]
      && (fate.Kept? ==> g.particles[i] == fate.moved)
      && (!fate.Kept? ==> forall j :: i <= j < |g.particles| ==> g.particles[j] == ps[j + 1])
      && (fate.Kept? ==> forall j :: i < j < |g.particles| ==> g.particles[j] == ps[j])
  {
    if fate.Consumed? {
      AddOreCounts(objs, fate.furnace, now);
    }
  }

  /** The transport pass never grows the list and leaves the slots before i alone. */
  lemma {:induction false} TransportPrefix(objs: seq<Building>, ps: seq<Particle>, i: nat, now: real, dt: real)
    decreases |ps| - i
    ensures var f := TransportFrom(objs, ps, i, now, dt);
      && |f.particles| <= |ps|
      && (i <= |ps| ==> i <= |f.particles| && f.particles[..i] == ps[..i])
  {
    if i < |ps| {
      var fate := FateOf(objs, ps[i], dt);
      var g := Apply(objs, ps, i, fate, now);
      ApplyFacts(objs, ps, i, fate, now);
      TransportPrefix(g.objects, g.particles, i + 1, now, dt);
      var f := TransportFrom(g.objects, g.particles, i + 1, now, dt);
      if i + 1 <= |g.particles| {
        assert f.particles[..i] == f.particles[..i + 1][..i];
        assert g.particles[..i] == g.particles[..i + 1][..i];
      }
    }
  }

  /**
    The transport pass changes the registry only by ore arrivals stamped now,
    and each arrival takes one particle out of the list.
  */
  lemma {:induction false} TransportOre(objs: seq<Building>, ps: seq<Particle>, i: nat, now: real, dt: real)
    decreases |ps| - i
    ensures var f := TransportFrom(objs, ps, i, now, dt);
      && OreAppended(objs, f.objects, now)
      && TotalOre(f.objects) - TotalOre(objs) + |f.particles| <= |ps|
  {
    if i < |ps| {
      var fate := FateOf(objs, ps[i], dt);
      var g := Apply(objs, ps, i, fate, now);
      ApplyFacts(objs, ps, i, fate, now);
      TransportOre(g.objects, g.particles, i + 1, now, dt);
      OreAppendedTrans(objs, g.objects, TransportFrom(g.objects, g.particles, i + 1, now, dt).objects, now);
    } else {
      assert OreAppended(objs, objs, now);
    }
  }

  /** Every particle the pass leaves from slot i on is an original one, kept as KeptAs says. */
  lemma {:induction false} TransportSurvivors(objs: seq<Building>, ps: seq<Particle>, i: nat, now: real, dt: real)
    decreases |ps| - i
    ensures var f := TransportFrom(objs, ps, i, now, dt);
      forall m :: i <= m < |f.particles| ==> exists j :: i <= j < |ps| && KeptAs(objs, ps[j], f.particles[m], dt)
  {
    if i < |ps| {
      var fate := FateOf(objs, ps[i], dt);
      var g := Apply(objs, ps, i, fate, now);
      ApplyFacts(objs, ps, i, fate, now);
      TransportSurvivors(g.objects, g.particles, i + 1, now, dt);
      TransportPrefix(g.objects, g.particles, i + 1, now, dt);
      var f := TransportFrom(g.objects, g.particles, i + 1, now, dt);
      forall m | i <= m < |f.particles|
        ensures exists j :: i <= j < |ps| && KeptAs(objs, ps[j], f.particles[m], dt)
      {
        var j;
        if m == i {
          assert f.particles[..i + 1][i] == g.particles[..i + 1][i];
          j := if fate.Kept? then i else i + 1;
          assert f.particles[m] == g.particles[i];
        } else {
          var j' :| i + 1 <= j' < |g.particles| && KeptAs(g.objects, g.particles[j'], f.particles[m], dt);
          j := if fate.Kept? then j' else j' + 1;
          assert g.particles[j'] == ps[j];
          FateIgnoresPayload(objs, g.objects, ps[j], dt);
        }
        assert KeptAs(objs, ps[j], f.particles[m], dt);
      }
    }
  }

  /**
    What the pass leaves in slot i: the moved particle when it is kept;
    otherwise the next particle, untouched, because the erase is not followed
    by a step back of the index.
  */
  lemma TransportAtSlot(objs: seq<Building>, ps: seq<Particle>, i: nat, now: real, dt: real)
    requires i < |ps|
    ensures var fate, out := FateOf(objs, ps[i], dt), TransportFrom(objs, ps, i, now, dt).particles;
      if fate.Kept? then i < |out| && out[i] == fate.moved
      else i + 1 < |ps| ==> i < |out| && out[i] == ps[i + 1]
  {
    var fate := FateOf(objs, ps[i], dt);
    var g := Apply(objs, ps, i, fate, now);
    ApplyFacts(objs, ps, i, fate, now);
    TransportPrefix(g.objects, g.particles, i + 1, now, dt);
    var out := TransportFrom(g.objects, g.particles, i + 1, now, dt).particles;
    if i + 1 <= |g.particles| {
      assert out[..i + 1][i] == g.particles[..i + 1][i];
    }
  }
}
