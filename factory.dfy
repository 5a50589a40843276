/**
  The application object: the mutable state of the factory and the code that
  updates it in place, one input event or one frame at a time. Each method that
  changes state is proved to have exactly the effect of the matching Simulation
  or Transport function; each read-only scan is proved to return exactly the value of the
  matching Registry or Transport function.
*/
module Factotum {
  import opened Wrappers
  import opened Geometry
  import opened Registry
  import opened Transport
  import opened Simulation

  /** Cells of building k of objs meet some candidate cell: the prefix up to k + 1 collides. */
  lemma CollidesPrefix(objs: seq<Building>, k: nat, cand: seq<Cell>)
    requires k < |objs|
    ensures Collides(objs[..k + 1], cand) <==> Collides(objs[..k], cand) || !Disjoint(BuildingFootprint(objs[k]), cand)
  {
    var pre, pre' := objs[..k], objs[..k + 1];
    if Collides(pre', cand) {
      var j, a, b :| 0 <= j < |pre'| && 0 <= a < |BuildingFootprint(pre'[j])| && 0 <= b < |cand|
        && BuildingFootprint(pre'[j])[a] == cand[b];
      if j < k {
        assert pre'[j] == pre[j];
      }
    }
    if Collides(pre, cand) {
      var j, a, b :| 0 <= j < |pre| && 0 <= a < |BuildingFootprint(pre[j])| && 0 <= b < |cand|
        && BuildingFootprint(pre[j])[a] == cand[b];
      assert pre'[j] == pre[j];
    }
    if !Disjoint(BuildingFootprint(objs[k]), cand) {
      assert pre'[k] == objs[k];
    }
  }

  /** Conveyor lookups read only kinds and positions, which timer updates leave alone. */
  lemma ConveyorAtLayout(objs: seq<Building>, objs': seq<Building>, c: Cell)
    requires SameLayout(objs, objs')
    ensures ConveyorAt(objs', c) == ConveyorAt(objs, c)
  {
    if ConveyorAt(objs, c) {
      var k :| 0 <= k < |objs| && objs[k].Kind() == Conveyor && objs[k].pos == c;
      assert objs'[k].Kind() == Conveyor && objs'[k].pos == c;
    }
  }

  /** The registry part-way through the emission pass: buildings before k updated, the rest as they were. */
  function EmissionUpTo(objs: seq<Building>, k: nat, now: real): (r: seq<Building>)
    requires k <= |objs|
    ensures SameLayout(objs, r)
    ensures k == 0 ==> r == objs
    ensures k == |objs| ==> r == EmissionObjects(objs, now)
  {
    seq(|objs|, j requires 0 <= j < |objs| => if j < k then AfterEmission(objs, objs[j], now) else objs[j])
  }

  /** One more building through the emission pass. */
  lemma EmissionUpToStep(objs: seq<Building>, k: nat, now: real)
    requires k < |objs|
    ensures EmissionUpTo(objs, k + 1, now) == EmissionUpTo(objs, k, now)[k := AfterEmission(objs, objs[k], now)]
    ensures EmissionUpTo(objs, |objs|, now) == EmissionObjects(objs, now)
  {
  }

  /** The particles of the emission pass, one building further. */
  lemma EmittedByStep(objs: seq<Building>, k: nat, now: real, ps: seq<Particle>)
    requires k < |objs|
    ensures Fires(objs, objs[k], now) ==> ps + EmittedBy(objs, k + 1, now) == ps + EmittedBy(objs, k, now) + [Emitted(objs[k], now)]
    ensures !Fires(objs, objs[k], now) ==> EmittedBy(objs, k + 1, now) == EmittedBy(objs, k, now)
  {
  }

  /** The fate of a particle, spelled out along the branches the transport code takes. */
  lemma FateBranches(objs: seq<Building>, p: Particle, dt: real)
    ensures var pos := Advance(p.pos, p.dir, dt);
      var route := RouteFrom(objs, 0, pos, Advance(pos, p.dir, dt));
      var moved := p.(pos := pos, dir := if route.Redirect? then route.dir else p.dir);
      && (route.OffPath? ==> FateOf(objs, p, dt) == Dropped)
      && (!route.OffPath? && FurnaceHit(objs, 0, pos).Some? ==> FateOf(objs, p, dt) == Consumed(FurnaceHit(objs, 0, pos).value))
      && (!route.OffPath? && FurnaceHit(objs, 0, pos).None? ==> FateOf(objs, p, dt) == Kept(moved))
  {
  }

  /** Storing a particle in slot i and then erasing slot i is erasing slot i. */
  lemma EraseAfterStore(ps: seq<Particle>, i: nat, q: Particle)
    requires i < |ps|
    ensures Erase(ps[i := q], i) == Erase(ps, i)
  {
  }

  class Factory {
    var objects: seq<Building>
    var nextId: nat
    var minerals: seq<Mineral>
    var particles: seq<Particle>
    var placing: bool
    var selected: Kind
    var rotation: Quarter
    var placementValid: bool

    /** The state of the object as a value. */
    ghost function Model(): World
      reads this
    {
      World(objects, nextId, minerals, particles, placing, selected, rotation, placementValid)
    }

    /** The state keeps fresh ids and claim flags that agree with the miners. */
    ghost predicate Valid()
      reads this
    {
      Inv(Model())
    }

    /** Start-up: load the deposit positions of the scene, unclaimed, in scene order. */
    constructor (deposits: seq<Cell>)
      ensures Model() == Initial(deposits)
      ensures Valid() && NoOverlap(objects)
    {
      var ms: seq<Mineral> := [];
      var i := 0;
      while i < |deposits|
        invariant 0 <= i <= |deposits| && |ms| == i
        invariant forall j :: 0 <= j < i ==> ms[j] == Mineral(deposits[j], false)
      {
        ms := ms + [Mineral(deposits[i], false)];
        i := i + 1;
      }
      objects := [];
      nextId := 0;
      minerals := ms;
      particles := [];
      placing := false;
      selected := Miner;
      rotation := 0;
      placementValid := true;
      new;
      assert minerals == Deposits(deposits);
      InitialInv(deposits);
    }

    /** Keys 1, 2 and 3: choose the kind to place. */
    method SelectItem(kind: Kind)
      modifies this
      ensures Model() == old(Model()).(selected := kind)
      ensures old(Valid()) ==> Valid()
    {
      selected := kind;
    }

    /** Key T: switch placement mode. */
    method TogglePlacing()
      modifies this
      ensures Model() == old(Model()).(placing := !old(placing))
      ensures old(Valid()) ==> Valid()
    {
      placing := !placing;
    }

    /** Key R: turn the preview a quarter turn on (90 degrees, wrapping at 360). */
    method RotatePreview()
      modifies this
      ensures Model() == old(Model()).(rotation := NextQuarter(old(rotation)))
      ensures QuarterDegrees(rotation) == NextPreviewDegrees(QuarterDegrees(old(rotation)))
      ensures old(Valid()) ==> Valid()
    {
      NextPreviewDegreesStep(QuarterDegrees(rotation), rotation);
      rotation := NextQuarter(rotation);
    }

    /** The deposit lookup: the first deposit stored exactly at pos. */
    method FindDeposit(pos: Cell) returns (r: Option<nat>)
      ensures r == FindMineral(minerals, pos)
    {
      var i := 0;
      while i < |minerals|
        invariant 0 <= i <= |minerals|
        invariant forall j :: 0 <= j < i ==> minerals[j].pos != pos
      {
        if minerals[i].pos == pos {
          return Some(i);
        }
        i := i + 1;
      }
      return None;
    }

    /** Whether some conveyor is stored exactly at cell c. */
    method HasConveyorAt(c: Cell) returns (found: bool)
      ensures found == ConveyorAt(objects, c)
    {
      found := false;
      var k := 0;
      while k < |objects|
        invariant 0 <= k <= |objects|
        invariant forall j :: 0 <= j < k ==> !(objects[j].Kind() == Conveyor && objects[j].pos == c)
      {
        if objects[k].Kind() == Conveyor && objects[k].pos == c {
          found := true;
          break;
        }
        k := k + 1;
      }
    }

    /**
      The validity check of a frame: compare every cell of every placed
      building with every cell the selected kind would occupy at pos, then
      apply the deposit rule.
    */
    method CheckPlacement(pos: Cell) returns (ok: bool)
      ensures ok == PlacementValid(objects, minerals, selected, pos, rotation)
    {
      var cand := Footprint(selected, pos, rotation);
      ok := true;
      var k := 0;
      while k < |objects|
        invariant 0 <= k <= |objects|
        invariant ok == !Collides(objects[..k], cand)
      {
        var cells := BuildingFootprint(objects[k]);
        var a := 0;
        while a < |cells|
          invariant 0 <= a <= |cells|
          invariant ok == (!Collides(objects[..k], cand) &&
            forall x, y :: 0 <= x < a && 0 <= y < |cand| ==> cells[x] != cand[y])
        {
          if ok {
            var b := 0;
            while b < |cand|
              invariant 0 <= b <= |cand| && ok
              invariant forall y :: 0 <= y < b ==> cells[a] != cand[y]
            {
              if cells[a] == cand[b] {
                ok := false;
                break;
              }
              b := b + 1;
            }
          }
          a := a + 1;
        }
        CollidesPrefix(objects, k, cand);
        k := k + 1;
      }
      assert objects[..|objects|] == objects;
      if ok && selected == Miner {
        var m := FindDeposit(pos);
        if m.None? || minerals[m.value].beingMined {
          ok := false;
        }
      } else if ok && selected != Miner {
        var m := FindDeposit(pos);
        if m.Some? {
          ok := false;
        }
      }
    }

    /** The conveyor scan for a particle at pos whose next position would be look. */
    method ScanConveyors(pos: Point, look: Point) returns (r: Route)
      ensures r == RouteFrom(objects, 0, pos, look)
    {
      var k := 0;
      while k < |objects|
        invariant 0 <= k <= |objects|
        invariant RouteFrom(objects, k, pos, look) == RouteFrom(objects, 0, pos, look)
      {
        var b := objects[k];
        if b.Kind() == Conveyor {
          if Dist2(pos, ToPoint(b.pos)) <= NearRadius2 {
            return Redirect(FlowDirection(b.rot));
          } else if Dist2(look, ToPoint(b.pos)) <= LookRadius2 {
            return Glide;
          }
        }
        k := k + 1;
      }
      return OffPath;
    }

    /** The furnace scan: the first furnace with a cell within capture radius of pos. */
    method ScanFurnaces(pos: Point) returns (r: Option<nat>)
      ensures r == FurnaceHit(objects, 0, pos)
    {
      var k := 0;
      while k < |objects|
        invariant 0 <= k <= |objects|
        invariant FurnaceHit(objects, k, pos) == FurnaceHit(objects, 0, pos)
      {
        var b := objects[k];
        if b.Kind() == Furnace {
          var cells := FurnaceFootprint(b.pos, b.rot);
          var c := 0;
          while c < |cells|
            invariant 0 <= c <= |cells|
            invariant forall c' :: 0 <= c' < c ==> Dist2(ToPoint(cells[c']), pos) > NearRadius2
          {
            if Dist2(ToPoint(cells[c]), pos) <= NearRadius2 {
              return Some(k);
            }
            c := c + 1;
          }
        }
        k := k + 1;
      }
      return None;
    }

    /**
      The emission pass: each miner whose timer ran out and whose anchor cell
      holds a conveyor emits one particle at its outlet and restarts its timer.
    */
    method EmitOre(now: real)
      modifies this
      ensures Model() == Emission(old(Model()), now)
    {
      ghost var objs0, ps0 := objects, particles;
      var k := 0;
      while k < |objects|
        invariant 0 <= k <= |objs0|
        invariant objects == EmissionUpTo(objs0, k, now)
        invariant particles == ps0 + EmittedBy(objs0, k, now)
        invariant Model() == old(Model()).(objects := objects, particles := particles)
      {
        EmissionUpToStep(objs0, k, now);
        EmittedByStep(objs0, k, now, ps0);
        ConveyorAtLayout(objs0, objects, MinerAnchor(objs0[k].pos, objs0[k].rot));
        EmitFrom(k, now);
        k := k + 1;
      }
    }

    /** The emission step for building k: a miner that fires emits a particle and restarts its timer. */
    method EmitFrom(k: nat, now: real)
      requires k < |objects|
      modifies this
      ensures var b := old(objects)[k];
        && objects == old(objects)[k := AfterEmission(old(objects), b, now)]
        && particles == old(particles) + (if Fires(old(objects), b, now) then [Emitted(b, now)] else [])
      ensures Model() == old(Model()).(objects := objects, particles := particles)
    {
      var b := objects[k];
      if b.body.MinerBody? && now - b.body.lastSpawnTime > SpawnInterval {
        var anchor := MinerAnchor(b.pos, b.rot);
        var found := HasConveyorAt(anchor);
        if found {
          var dir := FlowDirection(b.rot);
          var start := Point(anchor.x as real - dir.x * GridSize as real, anchor.z as real - dir.z * GridSize as real);
          EmittedGeometry(b, now);
          particles := particles + [Particle(start, start, dir, now)];
          objects := objects[k := b.(body := MinerBody(now))];
        }
      }
    }

    /**
      The transport pass: move each particle, steer it by the conveyor scan,
      hand it to the first furnace in reach, and erase it when it is off the
      belt or taken in. The index moves on after an erase as well.
    */
    method MoveOre(now: real, dt: real)
      modifies this
      ensures Model() == Transported(old(Model()), now, dt)
    {
      ghost var goal := TransportFrom(objects, particles, 0, now, dt);
      var i := 0;
      while i < |particles|
        invariant TransportFrom(objects, particles, i, now, dt) == goal
        invariant Model() == old(Model()).(objects := objects, particles := particles)
        decreases |particles| - i
      {
        MoveParticle(i, now, dt);
        i := i + 1;
      }
    }

    /** The transport step for the particle in slot i. */
    method MoveParticle(i: nat, now: real, dt: real)
      requires i < |particles|
      modifies this
      ensures Flow(objects, particles) == Apply(old(objects), old(particles), i, FateOf(old(objects), old(particles)[i], dt), now)
      ensures Model() == old(Model()).(objects := objects, particles := particles)
    {
      ghost var objs, ps := objects, particles;
      var p := particles[i];
      FateBranches(objs, p, dt);
      var pos := Advance(p.pos, p.dir, dt);
      var dir := p.dir;
      var valid := false;
      var route := ScanConveyors(pos, Advance(pos, dir, dt));
      if route.Redirect? {
        dir := route.dir;
        valid := true;
      } else if route.Glide? {
        valid := true;
      }
      var moved := p.(pos := pos, dir := dir);
      particles := particles[i := moved];
      ghost var fate: Fate := Dropped;
      if valid {
        var hit := ScanFurnaces(pos);
        if hit.Some? {
          var f := objects[hit.value];
          objects := objects[hit.value := f.(body := f.body.(ore := f.body.ore + [now]))];
          valid := false;
          fate := Consumed(hit.value);
          assert objects == AddOre(objs, hit.value, now);
        } else {
          fate := Kept(moved);
        }
      }
      if !valid {
        EraseAfterStore(ps, i, moved);
        particles := particles[..i] + particles[i + 1..];
      }
      assert fate == FateOf(objs, ps[i], dt);
    }

    /** One frame: emission, transport, then the validity check at the aimed cell while placing. */
    method UpdateFrame(now: real, dt: real, aim: Option<Cell>)
      requires Valid()
      modifies this
      ensures Model() == Frame(old(Model()), now, dt, aim)
      ensures Valid()
      ensures old(NoOverlap(objects)) ==> NoOverlap(objects)
    {
      FrameKeepsInvariants(Model(), now, dt, aim);
      EmitOre(now);
      MoveOre(now, dt);
      if placing {
        placementValid := CheckPlacement(GroundCell(aim));
      }
    }

    /** Left click while placing: place the selected kind at the clicked cell if the frame's check allowed it. */
    method LeftClick(hit: Option<Cell>)
      requires Valid()
      modifies this
      ensures Model() == Commit(old(Model()), GroundCell(hit))
      ensures Valid()
    {
      CommitKeepsInv(Model(), GroundCell(hit));
      if placing {
        var newPos := GroundCell(hit);
        var canPlace := placementValid;
        if selected == Miner && canPlace {
          var m := FindDeposit(newPos);
          if m.Some? && !minerals[m.value].beingMined {
            canPlace := true;
            minerals := minerals[m.value := minerals[m.value].(beingMined := true)];
          } else {
            canPlace := false;
          }
        }
        if canPlace {
          objects := objects + [NewBuilding(nextId, selected, newPos, rotation)];
          nextId := nextId + 1;
        }
      }
    }

    /** The removal at a resolved cell: erase the first building stored there, releasing a miner's deposit. */
    method RemoveAt(removalPos: Cell)
      modifies this
      ensures Model() == Remove(old(Model()), removalPos)
    {
      if placing {
        var k := 0;
        while k < |objects|
          invariant 0 <= k <= |objects|
          invariant forall j :: 0 <= j < k ==> objects[j].pos != removalPos
          invariant Model() == old(Model())
        {
          if objects[k].pos == removalPos {
            if objects[k].Kind() == Miner {
              var m := FindDeposit(removalPos);
              if m.Some? {
                minerals := minerals[m.value := minerals[m.value].(beingMined := false)];
              }
            }
            objects := objects[..k] + objects[k + 1..];
            return;
          }
          k := k + 1;
        }
      }
    }

    /** Right click while placing: remove the first building stored at the clicked cell. */
    method RightClick(hit: Option<Cell>)
      requires Valid()
      modifies this
      ensures Model() == Remove(old(Model()), GroundCell(hit))
      ensures Valid()
      ensures old(NoOverlap(objects)) ==> NoOverlap(objects)
    {
      RemoveKeepsInv(Model(), GroundCell(hit));
      if NoOverlap(objects) {
        RemoveKeepsNoOverlap(Model(), GroundCell(hit));
      }
      RemoveAt(GroundCell(hit));
    }
  }
}
