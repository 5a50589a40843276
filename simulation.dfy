/**
  The whole state the factory core keeps, the effect of each player command
  and of one frame on it, and the invariants those effects preserve.
*/
module Simulation {
  import opened Wrappers
  import opened Geometry
  import opened Registry
  import opened Transport

  /**
    Everything the core holds: the placed buildings in placement order, the
    next id to hand out, the mineral deposits, the ore particles in flight,
    and the placement preview (mode on or off, the selected kind, the preview
    rotation and the validity flag computed by the last frame).
  */
  datatype World = World(
    objects: seq<Building>,
    nextId: nat,
    minerals: seq<Mineral>,
    particles: seq<Particle>,
    placing: bool,
    selected: Kind,
    rotation: Quarter,
    placementValid: bool)

  /** The deposits as loaded from the scene, none claimed. */
  function Deposits(cells: seq<Cell>): (ms: seq<Mineral>)
    ensures forall i :: 0 <= i < |ms| ==> !ms[i].beingMined
    ensures forall c :: FindMineral(ms, c).Some? <==> c in cells
  {
    var ms := seq(|cells|, i requires 0 <= i < |cells| => Mineral(cells[i], false));
    assert forall c :: c in cells <==> exists i :: 0 <= i < |ms| && ms[i].pos == c by {
      forall c | c in cells ensures exists i :: 0 <= i < |ms| && ms[i].pos == c {
        var i :| 0 <= i < |cells| && cells[i] == c;
        assert ms[i].pos == c;
      }
    }
    ms
  }

  /** The state at start-up: nothing placed, preview off, miner selected, rotation 0, flag set. */
  function Initial(cells: seq<Cell>): World
  {
    World([], 0, Deposits(cells), [], false, Miner, 0, true)
  }

  /**
    The cell a click or the preview resolves to, given where the view ray met
    the ground snapped to the grid. A ray that misses gives the origin, which is
    itself an ordinary cell.
  */
  function GroundCell(hit: Option<Cell>): Cell
  {
    match hit
    case Some(c) => c
    case None => Cell(0, 0)
  }

  // ---------------------------------------------------------------------------
  // Commands
  // ---------------------------------------------------------------------------

  /** The new building records the current id, selection and preview rotation. */
  function Appended(w: World, pos: Cell): World
  {
    w.(objects := w.objects + [NewBuilding(w.nextId, w.selected, pos, w.rotation)], nextId := w.nextId + 1)
  }

  /**
    A left click at pos while placing. It trusts the validity flag of the last
    frame; a miner additionally needs the first deposit at pos to exist and be
    unclaimed, and claims it.
  */
  function Commit(w: World, pos: Cell): World
  {
    if !w.placing || !w.placementValid then w
    else if w.selected == Miner then
      match FindMineral(w.minerals, pos)
      case None => w
      case Some(i) =>
        if w.minerals[i].beingMined then w
        else Appended(w.(minerals := SetClaim(w.minerals, i, true)), pos)
    else Appended(w, pos)
  }

  /** The click is accepted: placing, flag set, and for a miner a free deposit at pos. */
  predicate Accepts(w: World, pos: Cell)
  {
    w.placing && w.placementValid &&
    (w.selected == Miner ==> FindMineral(w.minerals, pos).Some? && !w.minerals[FindMineral(w.minerals, pos).value].beingMined)
  }

  /**
    A right click at pos while placing: erase the first building stored exactly
    at pos; if it was a miner, release the first deposit at pos.
  */
  function Remove(w: World, pos: Cell): World
  {
    if !w.placing then w
    else match FirstAt(w.objects, pos)
      case None => w
      case Some(k) =>
        var ms := if w.objects[k].Kind() != Miner then w.minerals
          else match FindMineral(w.minerals, pos)
            case None => w.minerals
            case Some(i) => SetClaim(w.minerals, i, false);
        w.(objects := Erase(w.objects, k), minerals := ms)
  }

  /** The emission pass of a frame at time now. */
  function Emission(w: World, now: real): World
  {
    w.(objects := EmissionObjects(w.objects, now), particles := w.particles + EmittedBy(w.objects, |w.objects|, now))
  }

  /** The transport pass of a frame at time now, dt seconds after the previous one. */
  function Transported(w: World, now: real, dt: real): World
  {
    var f := TransportFrom(w.objects, w.particles, 0, now, dt);
    w.(objects := f.objects, particles := f.particles)
  }

  /** One frame: emission, transport, then (when placing) the validity check at the aimed cell. */
  ghost function Frame(w: World, now: real, dt: real, hit: Option<Cell>): World
  {
    var w' := Transported(Emission(w, now), now, dt);
    if w'.placing then w'.(placementValid := PlacementValid(w'.objects, w'.minerals, w'.selected, GroundCell(hit), w'.rotation))
    else w'
  }

  /** The discrete commands the input layer hands the core. */
  datatype Command =
    | Select(kind: Kind)
    | TogglePlacing
    | Rotate
    | PlaceClick(hit: Option<Cell>)
    | RemoveClick(hit: Option<Cell>)
    | Tick(now: real, dt: real, aim: Option<Cell>)

  ghost function Perform(w: World, c: Command): World
  {
    match c
    case Select(k) => w.(selected := k)
    case TogglePlacing => w.(placing := !w.placing)
    case Rotate => w.(rotation := NextQuarter(w.rotation))
    case PlaceClick(hit) => Commit(w, GroundCell(hit))
    case RemoveClick(hit) => Remove(w, GroundCell(hit))
    case Tick(now, dt, aim) => Frame(w, now, dt, aim)
  }

  ghost function Run(w: World, cs: seq<Command>): World
    decreases |cs|
  {
    if |cs| == 0 then w else Run(Perform(w, cs[0]), cs[1..])
  }

  // ---------------------------------------------------------------------------
  // Invariants
  // ---------------------------------------------------------------------------

  /** Ids increase along the registry and stay below the next id, so no id is ever reused. */
  ghost predicate IdsFresh(objs: seq<Building>, next: nat)
  {
    && (forall k :: 0 <= k < |objs| ==> objs[k].id < next)
    && (forall k, k' :: 0 <= k < k' < |objs| ==> objs[k].id < objs[k'].id)
  }

  /** A miner claims the first deposit at its position. */
  ghost predicate Claims(b: Building, ms: seq<Mineral>, i: nat)
  {
    b.Kind() == Miner && FindMineral(ms, b.pos) == Some(i)
  }

  /**
    Claim flags agree with the miners: every miner sits on a deposit, a deposit
    is flagged exactly when a miner claims it, and no two miners share a position
    (hence a deposit has at most one claiming miner).
  */
  ghost predicate ClaimsAgree(objs: seq<Building>, ms: seq<Mineral>)
  {
    && (forall k :: 0 <= k < |objs| && objs[k].Kind() == Miner ==> FindMineral(ms, objs[k].pos).Some?)
    && (forall i :: 0 <= i < |ms| ==> (ms[i].beingMined <==> exists k :: 0 <= k < |objs| && Claims(objs[k], ms, i)))
    && (forall k, k' :: 0 <= k < k' < |objs| && objs[k].Kind() == Miner && objs[k'].Kind() == Miner ==>
          objs[k].pos != objs[k'].pos)
  }

  ghost predicate Inv(w: World)
  {
    IdsFresh(w.objects, w.nextId) && ClaimsAgree(w.objects, w.minerals)
  }

  /** Two cell sequences share no cell. */
  ghost predicate Disjoint(a: seq<Cell>, b: seq<Cell>)
  {
    forall x, y :: 0 <= x < |a| && 0 <= y < |b| ==> a[x] != b[y]
  }

  /** No two placed buildings' footprints share a cell. */
  ghost predicate NoOverlap(objs: seq<Building>)
  {
    forall k, k' :: 0 <= k < k' < |objs| ==> Disjoint(BuildingFootprint(objs[k]), BuildingFootprint(objs[k']))
  }

  // ---------------------------------------------------------------------------
  // Commit and removal
  // ---------------------------------------------------------------------------

  /**
    The effect of a left click: when accepted, exactly one building with the
    old next id is appended, the counter goes up by one, earlier buildings are
    untouched, and a miner's deposit becomes claimed; otherwise nothing changes.
  */
  lemma CommitEffect(w: World, pos: Cell)
    ensures Accepts(w, pos) ==>
      var w' := Commit(w, pos);
      && |w'.objects| == |w.objects| + 1 && w'.objects[..|w.objects|] == w.objects
      && w'.objects[|w.objects|] == NewBuilding(w.nextId, w.selected, pos, w.rotation)
      && w'.nextId == w.nextId + 1
      && w'.minerals == (if w.selected == Miner then SetClaim(w.minerals, FindMineral(w.minerals, pos).value, true) else w.minerals)
      && w'.particles == w.particles
      && w'.placing == w.placing && w'.selected == w.selected
      && w'.rotation == w.rotation && w'.placementValid == w.placementValid
    ensures !Accepts(w, pos) ==> Commit(w, pos) == w
  {
    var w' := Commit(w, pos);
    if Accepts(w, pos) {
      assert w'.objects[..|w.objects|] == w.objects;
    }
  }

  /** Appending a building with the next id keeps ids fresh once the counter moves on. */
  lemma AppendKeepsIds(objs: seq<Building>, next: nat, nb: Building)
    requires IdsFresh(objs, next) && nb.id == next
    ensures IdsFresh(objs + [nb], next + 1)
  {
  }

  /** Claiming deposit i0 for an appended miner on it: deposit i is flagged exactly when claimed. */
  lemma AppendMinerClaimAt(objs: seq<Building>, ms: seq<Mineral>, nb: Building, i0: nat, i: nat)
    requires ClaimsAgree(objs, ms) && i < |ms|
    requires nb.Kind() == Miner && FindMineral(ms, nb.pos) == Some(i0) && !ms[i0].beingMined
    requires forall x :: FindMineral(SetClaim(ms, i0, true), x) == FindMineral(ms, x)
    ensures SetClaim(ms, i0, true)[i].beingMined <==>
      exists k :: 0 <= k < |objs + [nb]| && Claims((objs + [nb])[k], SetClaim(ms, i0, true), i)
  {
    var objs', ms' := objs + [nb], SetClaim(ms, i0, true);
    if i == i0 {
      assert Claims(objs'[|objs|], ms', i);
    } else {
      if exists k :: 0 <= k < |objs'| && Claims(objs'[k], ms', i) {
        var k :| 0 <= k < |objs'| && Claims(objs'[k], ms', i);
        assert k < |objs| && Claims(objs[k], ms, i);
      }
      if ms[i].beingMined {
        var k :| 0 <= k < |objs| && Claims(objs[k], ms, i);
        assert Claims(objs'[k], ms', i);
      }
    }
  }

  /** Appending a miner on a free deposit and claiming that deposit keeps the claims in agreement. */
  lemma AppendMinerKeepsClaims(objs: seq<Building>, ms: seq<Mineral>, nb: Building, i0: nat)
    requires ClaimsAgree(objs, ms)
    requires nb.Kind() == Miner && FindMineral(ms, nb.pos) == Some(i0) && !ms[i0].beingMined
    ensures ClaimsAgree(objs + [nb], SetClaim(ms, i0, true))
  {
    var objs', ms' := objs + [nb], SetClaim(ms, i0, true);
    forall x ensures FindMineral(ms', x) == FindMineral(ms, x) {
      FindMineralIgnoresClaims(ms, ms', x);
    }
    forall k | 0 <= k < |objs'| && objs'[k].Kind() == Miner ensures FindMineral(ms', objs'[k].pos).Some? {
      if k < |objs| {
        assert objs'[k] == objs[k];
      }
    }
    forall k, k' | 0 <= k < k' < |objs'| && objs'[k].Kind() == Miner && objs'[k'].Kind() == Miner
      ensures objs'[k].pos != objs'[k'].pos
    {
      assert objs'[k] == objs[k];
      if k' == |objs| {
        assert !Claims(objs[k], ms, i0);
      } else {
        assert objs'[k'] == objs[k'];
      }
    }
    forall i | 0 <= i < |ms'|
      ensures ms'[i].beingMined <==> exists k :: 0 <= k < |objs'| && Claims(objs'[k], ms', i)
    {
      AppendMinerClaimAt(objs, ms, nb, i0, i);
    }
  }

  /** Appending a building that is not a miner leaves the claims in agreement. */
  lemma AppendOtherKeepsClaims(objs: seq<Building>, ms: seq<Mineral>, nb: Building)
    requires ClaimsAgree(objs, ms) && nb.Kind() != Miner
    ensures ClaimsAgree(objs + [nb], ms)
  {
    var objs' := objs + [nb];
    forall i | 0 <= i < |ms|
      ensures ms[i].beingMined <==> exists k :: 0 <= k < |objs'| && Claims(objs'[k], ms, i)
    {
      if exists k :: 0 <= k < |objs'| && Claims(objs'[k], ms, i) {
        var k :| 0 <= k < |objs'| && Claims(objs'[k], ms, i);
        assert k < |objs| && Claims(objs[k], ms, i);
      }
      if ms[i].beingMined {
        var k :| 0 <= k < |objs| && Claims(objs[k], ms, i);
        assert Claims(objs'[k], ms, i);
      }
    }
  }

  /** Commit keeps ids fresh and claim flags in agreement with the miners, whatever the flag. */
  lemma CommitKeepsInv(w: World, pos: Cell)
    requires Inv(w)
    ensures Inv(Commit(w, pos))
  {
    if Accepts(w, pos) {
      var nb := NewBuilding(w.nextId, w.selected, pos, w.rotation);
      AppendKeepsIds(w.objects, w.nextId, nb);
      if w.selected == Miner {
        AppendMinerKeepsClaims(w.objects, w.minerals, nb, FindMineral(w.minerals, pos).value);
      } else {
        AppendOtherKeepsClaims(w.objects, w.minerals, nb);
      }
    }
  }

  /**
    A commit whose flag was computed for this very cell and state keeps the
    footprints of all placed buildings pairwise disjoint.
  */
  lemma CommitWithFreshFlagKeepsNoOverlap(w: World, pos: Cell)
    requires NoOverlap(w.objects)
    requires w.placementValid == PlacementValid(w.objects, w.minerals, w.selected, pos, w.rotation)
    ensures NoOverlap(Commit(w, pos).objects)
  {
    if Accepts(w, pos) {
      var objs, objs' := w.objects, Commit(w, pos).objects;
      var cand := Footprint(w.selected, pos, w.rotation);
      assert objs' == objs + [NewBuilding(w.nextId, w.selected, pos, w.rotation)];
      assert BuildingFootprint(objs'[|objs|]) == cand;
      forall k, k' | 0 <= k < k' < |objs'|
        ensures Disjoint(BuildingFootprint(objs'[k]), BuildingFootprint(objs'[k']))
      {
        if k' == |objs| {
          forall x, y | 0 <= x < |BuildingFootprint(objs[k])| && 0 <= y < |cand|
            ensures BuildingFootprint(objs[k])[x] != cand[y]
          {
            if BuildingFootprint(objs[k])[x] == cand[y] {
              assert Collides(objs, cand);
            }
          }
        }
      }
    }
  }

  /**
    A valid placement never lands on the stored position of a placed building,
    since every building's position is one of its own footprint cells.
  */
  lemma PlacementValidMeansCellFree(w: World, pos: Cell)
    requires PlacementValid(w.objects, w.minerals, w.selected, pos, w.rotation)
    ensures FirstAt(w.objects, pos).None?
  {
    var cand := Footprint(w.selected, pos, w.rotation);
    FootprintSize(w.selected, pos, w.rotation);
    var b :| 0 <= b < |cand| && cand[b] == pos;
    forall k | 0 <= k < |w.objects| ensures w.objects[k].pos != pos {
      var o := w.objects[k];
      FootprintSize(o.Kind(), o.pos, o.rot);
      var a :| 0 <= a < |BuildingFootprint(o)| && BuildingFootprint(o)[a] == o.pos;
      if o.pos == pos {
        assert Collides(w.objects, cand);
      }
    }
  }

  /**
    Removing what a click just placed restores the registry and the deposits;
    only the id counter remembers the placement, so ids are never reused.
  */
  lemma RemoveUndoesCommit(w: World, pos: Cell)
    requires Accepts(w, pos)
    requires FirstAt(w.objects, pos).None?
    ensures Remove(Commit(w, pos), pos) == w.(nextId := w.nextId + 1)
  {
    var w1 := Commit(w, pos);
    var objs := w.objects;
    assert w1.objects == objs + [NewBuilding(w.nextId, w.selected, pos, w.rotation)];
    assert w1.objects[|objs|].pos == pos;
    assert forall j :: 0 <= j < |objs| ==> w1.objects[j] == objs[j];
    assert FirstAt(w1.objects, pos) == Some(|objs|);
    assert Erase(w1.objects, |objs|) == objs;
    if w.selected == Miner {
      var i := FindMineral(w.minerals, pos).value;
      FindMineralIgnoresClaims(w.minerals, w1.minerals, pos);
      assert SetClaim(w1.minerals, i, false) == w.minerals;
    }
  }

  /**
    The effect of a right click: only the first building stored exactly at pos
    is erased, the rest keep their order; erasing a miner releases the first
    deposit at pos; the mode, selection, rotation and cached flag stay. Outside
    placing mode, or with no building there, nothing changes.
  */
  lemma RemoveEffect(w: World, pos: Cell)
    ensures !w.placing || FirstAt(w.objects, pos).None? ==> Remove(w, pos) == w
    ensures w.placing && FirstAt(w.objects, pos).Some? ==>
      var k, w' := FirstAt(w.objects, pos).value, Remove(w, pos);
      && w'.objects == w.objects[..k] + w.objects[k + 1..]
      && (forall j :: 0 <= j < k ==> w.objects[j].pos != pos)
      && w'.nextId == w.nextId && w'.particles == w.particles
      && w'.placing == w.placing && w'.selected == w.selected
      && w'.rotation == w.rotation && w'.placementValid == w.placementValid
      && (w.objects[k].Kind() == Miner && FindMineral(w.minerals, pos).Some? ==>
            w'.minerals == SetClaim(w.minerals, FindMineral(w.minerals, pos).value, false))
      && (w.objects[k].Kind() == Miner && FindMineral(w.minerals, pos).None? ==> w'.minerals == w.minerals)
      && (w.objects[k].Kind() != Miner ==> w'.minerals == w.minerals)
  {
  }

  /** Erasing one building keeps ids fresh and miner positions distinct and on deposits. */
  lemma EraseKeepsMinerFacts(objs: seq<Building>, next: nat, ms: seq<Mineral>, k: nat)
    requires k < |objs| && IdsFresh(objs, next) && ClaimsAgree(objs, ms)
    ensures IdsFresh(Erase(objs, k), next)
    ensures forall j :: 0 <= j < |Erase(objs, k)| && Erase(objs, k)[j].Kind() == Miner ==>
      FindMineral(ms, Erase(objs, k)[j].pos).Some?
    ensures forall j, j' :: (0 <= j < j' < |Erase(objs, k)| && Erase(objs, k)[j].Kind() == Miner
      && Erase(objs, k)[j'].Kind() == Miner) ==> Erase(objs, k)[j].pos != Erase(objs, k)[j'].pos
  {
    var r := Erase(objs, k);
    forall j, j' | 0 <= j < j' < |r|
      ensures r[j].id < r[j'].id
      ensures r[j].Kind() == Miner && r[j'].Kind() == Miner ==> r[j].pos != r[j'].pos
    {
      var a, b := if j < k then j else j + 1, if j' < k then j' else j' + 1;
      assert r[j] == objs[a] && r[j'] == objs[b];
    }
  }

  /** Slot j of a registry with building k erased holds building j, or j + 1 from k on. */
  lemma EraseSlot(objs: seq<Building>, k: nat, j: nat)
    requires k < |objs| && j < |objs| - 1
    ensures Erase(objs, k)[j] == objs[if j < k then j else j + 1]
  {
  }

  /** After erasing building k, a deposit is claimed exactly when some other building claimed it. */
  lemma ClaimsAfterErase(objs: seq<Building>, ms: seq<Mineral>, ms': seq<Mineral>, k: nat, i: nat)
    requires k < |objs|
    requires forall x :: FindMineral(ms', x) == FindMineral(ms, x)
    ensures (exists j :: 0 <= j < |Erase(objs, k)| && Claims(Erase(objs, k)[j], ms', i)) <==>
      (exists j :: 0 <= j < |objs| && j != k && Claims(objs[j], ms, i))
  {
    var r := Erase(objs, k);
    if exists j :: 0 <= j < |r| && Claims(r[j], ms', i) {
      var j :| 0 <= j < |r| && Claims(r[j], ms', i);
      EraseSlot(objs, k, j);
      var a := if j < k then j else j + 1;
      assert Claims(objs[a], ms, i);
    }
    if exists j :: 0 <= j < |objs| && j != k && Claims(objs[j], ms, i) {
      var j :| 0 <= j < |objs| && j != k && Claims(objs[j], ms, i);
      var a := if j < k then j else j - 1;
      EraseSlot(objs, k, a);
      assert Claims(r[a], ms', i);
    }
  }

  /** Removal keeps ids fresh and claim flags in agreement with the miners. */
  lemma RemoveKeepsInv(w: World, pos: Cell)
    requires Inv(w)
    ensures Inv(Remove(w, pos))
  {
    if w.placing && FirstAt(w.objects, pos).Some? {
      var k := FirstAt(w.objects, pos).value;
      var w' := Remove(w, pos);
      var objs, ms, ms' := w.objects, w.minerals, w'.minerals;
      assert w'.objects == Erase(objs, k);
      EraseKeepsMinerFacts(objs, w.nextId, ms, k);
      forall x ensures FindMineral(ms', x) == FindMineral(ms, x) {
        FindMineralIgnoresClaims(ms, ms', x);
      }
      forall i | 0 <= i < |ms'|
        ensures ms'[i].beingMined <==> exists j :: 0 <= j < |Erase(objs, k)| && Claims(Erase(objs, k)[j], ms', i)
      {
        ClaimsAfterErase(objs, ms, ms', k, i);
        if Claims(objs[k], ms, i) {
          // the erased miner was the only one on its deposit, which is now released
          assert ms' == SetClaim(ms, i, false);
        } else {
          assert ms'[i] == ms[i];
          if ms[i].beingMined {
            var j :| 0 <= j < |objs| && Claims(objs[j], ms, i);
            assert j != k;
          }
        }
      }
    }
  }

  /** Removal keeps the footprints of the remaining buildings pairwise disjoint. */
  lemma RemoveKeepsNoOverlap(w: World, pos: Cell)
    requires NoOverlap(w.objects)
    ensures NoOverlap(Remove(w, pos).objects)
  {
    if w.placing && FirstAt(w.objects, pos).Some? {
      var k := FirstAt(w.objects, pos).value;
      var objs, objs' := w.objects, Remove(w, pos).objects;
      forall a, b | 0 <= a < b < |objs'|
        ensures Disjoint(BuildingFootprint(objs'[a]), BuildingFootprint(objs'[b]))
      {
        var a', b' := if a < k then a else a + 1, if b < k then b else b + 1;
        assert objs'[a] == objs[a'] && objs'[b] == objs[b'];
      }
    }
  }

  // ---------------------------------------------------------------------------
  // Frames
  // ---------------------------------------------------------------------------

  /** The invariants read only ids, kinds and positions, which a frame does not change. */
  lemma LayoutKeepsInvariants(w: World, w': World)
    requires SameLayout(w.objects, w'.objects)
    requires w'.minerals == w.minerals && w'.nextId == w.nextId
    ensures Inv(w) ==> Inv(w')
    ensures NoOverlap(w.objects) ==> NoOverlap(w'.objects)
  {
    var objs, objs', ms := w.objects, w'.objects, w.minerals;
    assert forall k :: 0 <= k < |objs| ==> BuildingFootprint(objs'[k]) == BuildingFootprint(objs[k]);
    if Inv(w) {
      forall i | 0 <= i < |ms|
        ensures ms[i].beingMined <==> exists k :: 0 <= k < |objs'| && Claims(objs'[k], ms, i)
      {
        if ms[i].beingMined {
          var k :| 0 <= k < |objs| && Claims(objs[k], ms, i);
          assert Claims(objs'[k], ms, i);
        }
        if exists k :: 0 <= k < |objs'| && Claims(objs'[k], ms, i) {
          var k :| 0 <= k < |objs'| && Claims(objs'[k], ms, i);
          assert Claims(objs[k], ms, i);
        }
      }
    }
  }

  /**
    A frame keeps every invariant, the deposits and the id counter, and its
    particle list holds at most one newcomer per placed building.
  */
  lemma FrameKeepsInvariants(w: World, now: real, dt: real, hit: Option<Cell>)
    ensures var w' := Frame(w, now, dt, hit);
      && (Inv(w) ==> Inv(w'))
      && (NoOverlap(w.objects) ==> NoOverlap(w'.objects))
      && w'.minerals == w.minerals && w'.nextId == w.nextId
      && |w'.particles| <= |w.particles| + |w.objects|
  {
    var w1 := Emission(w, now);
    EmissionKeepsLayout(w.objects, now);
    EmittedByMiners(w.objects, |w.objects|, now);
    var w2 := Transported(w1, now, dt);
    TransportOre(w1.objects, w1.particles, 0, now, dt);
    TransportPrefix(w1.objects, w1.particles, 0, now, dt);
    LayoutKeepsInvariants(w, w1);
    LayoutKeepsInvariants(w1, w2);
  }

  /** Every command keeps the invariants. */
  lemma PerformKeepsInv(w: World, c: Command)
    requires Inv(w)
    ensures Inv(Perform(w, c))
  {
    match c
    case PlaceClick(hit) => CommitKeepsInv(w, GroundCell(hit));
    case RemoveClick(hit) => RemoveKeepsInv(w, GroundCell(hit));
    case Tick(now, dt, aim) => FrameKeepsInvariants(w, now, dt, aim);
    case _ =>
  }

  /**
    From start-up, through any sequence of commands, ids stay fresh and claim
    flags agree with the miners: a deposit is claimed by at most one miner, and
    is flagged exactly while one is placed on it.
  */
  lemma {:induction false} RunKeepsInv(w: World, cs: seq<Command>)
    requires Inv(w)
    decreases |cs|
    ensures Inv(Run(w, cs))
  {
    if |cs| > 0 {
      PerformKeepsInv(w, cs[0]);
      RunKeepsInv(Perform(w, cs[0]), cs[1..]);
    }
  }

  lemma InitialInv(cells: seq<Cell>)
    ensures Inv(Initial(cells)) && NoOverlap(Initial(cells).objects)
  {
  }

  /**
    The flag is only refreshed by a frame, so two clicks before the next frame
    both pass: the second conveyor lands on the cell the first one took.
  */
  lemma RepeatedClickOverlaps()
    ensures var w := World([], 0, [], [], true, Conveyor, 0, true);
      && PlacementValid(w.objects, w.minerals, w.selected, Cell(0, 0), w.rotation)
      && NoOverlap(Commit(w, Cell(0, 0)).objects)
      && !NoOverlap(Commit(Commit(w, Cell(0, 0)), Cell(0, 0)).objects)
  {
    var w := World([], 0, [], [], true, Conveyor, 0, true);
    var objs := Commit(Commit(w, Cell(0, 0)), Cell(0, 0)).objects;
    assert BuildingFootprint(objs[0])[0] == BuildingFootprint(objs[1])[0];
  }

  /**
    A click whose view ray misses the ground acts on the origin: it does what a
    click aimed at Cell(0, 0) does, so an accepted left click places a building
    there and a right click removes the building stored there.
  */
  lemma MissedRayActsAtOrigin(w: World)
    ensures Perform(w, PlaceClick(None)) == Perform(w, PlaceClick(Some(Cell(0, 0))))
    ensures Perform(w, RemoveClick(None)) == Perform(w, RemoveClick(Some(Cell(0, 0))))
    ensures Accepts(w, Cell(0, 0)) ==>
      var w' := Perform(w, PlaceClick(None));
      |w'.objects| == |w.objects| + 1 && w'.objects[|w.objects|].pos == Cell(0, 0)
    ensures w.placing && FirstAt(w.objects, Cell(0, 0)).Some? ==>
      |Perform(w, RemoveClick(None)).objects| == |w.objects| - 1
  {
    CommitEffect(w, Cell(0, 0));
  }
}
