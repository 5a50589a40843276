/**
  Placed buildings and mineral deposits: the records the factory keeps, the
  footprint of each kind of building, the lookups by exact position, and the
  rule that decides whether a building may be placed at a cell.
*/
module Registry {
  import opened Wrappers
  import opened Geometry

  /** The three kinds of building the player can select. */
  datatype Kind = Miner | Conveyor | Furnace

  /**
    The per-kind payload of a placed building: a miner's spawn timer, nothing
    for a conveyor, a furnace's coal and ore arrival times.
  */
  datatype Body =
    | MinerBody(lastSpawnTime: real)
    | ConveyorBody
    | FurnaceBody(coal: seq<real>, ore: seq<real>)

  /** A placed building: its id, the cell it was placed at, its rotation and its payload. */
  datatype Building = Building(id: nat, pos: Cell, rot: Quarter, body: Body)
  {
    function Kind(): Kind
    {
      match body
      case MinerBody(_) => Miner
      case ConveyorBody => Conveyor
      case FurnaceBody(_, _) => Furnace
    }
  }

  /** A mineral deposit and whether a miner has claimed it. */
  datatype Mineral = Mineral(pos: Cell, beingMined: bool)

  /** A freshly placed building: a miner's timer starts at 0, a furnace starts empty. */
  function NewBuilding(id: nat, kind: Kind, pos: Cell, rot: Quarter): (b: Building)
    ensures b.id == id && b.pos == pos && b.rot == rot && b.Kind() == kind
    ensures b.body == ConveyorBody || b.body == MinerBody(0.0) || b.body == FurnaceBody([], [])
  {
    var body := match kind
      case Miner => MinerBody(0.0)
      case Conveyor => ConveyorBody
      case Furnace => FurnaceBody([], []);
    Building(id, pos, rot, body)
  }

  /** The cells a building of the given kind occupies; a conveyor occupies its own cell only. */
  function Footprint(kind: Kind, pos: Cell, rot: Quarter): seq<Cell>
  {
    match kind
    case Miner => MinerFootprint(pos, rot)
    case Furnace => FurnaceFootprint(pos, rot)
    case Conveyor => [pos]
  }

  /** The footprint of a placed building, computed from its own kind and rotation. */
  function BuildingFootprint(b: Building): seq<Cell>
  {
    Footprint(b.Kind(), b.pos, b.rot)
  }

  /** Footprint sizes: 28 cells for a miner, 2 for a furnace, 1 for a conveyor, all distinct. */
  lemma FootprintSize(kind: Kind, pos: Cell, rot: Quarter)
    ensures |Footprint(kind, pos, rot)| == match kind case Miner => 28 case Furnace => 2 case Conveyor => 1
    ensures forall a, b :: 0 <= a < b < |Footprint(kind, pos, rot)| ==>
      Footprint(kind, pos, rot)[a] != Footprint(kind, pos, rot)[b]
    ensures pos in Footprint(kind, pos, rot)
  {
    match kind
    case Miner =>
      MinerFootprintDistinct(pos, rot);
      MinerFootprintAt(pos, rot, 0);
      assert MinerFootprint(pos, rot)[0] == pos;
    case Furnace => FurnaceFootprintShape(pos, rot);
    case Conveyor =>
  }

  /** The first mineral whose position is exactly p, if any. */
  function FindMineral(ms: seq<Mineral>, p: Cell): (r: Option<nat>)
    ensures r.Some? ==> r.value < |ms| && ms[r.value].pos == p
    ensures r.Some? ==> forall j :: 0 <= j < r.value ==> ms[j].pos != p
    ensures r.None? <==> forall j :: 0 <= j < |ms| ==> ms[j].pos != p
  {
    if |ms| == 0 then None
    else if ms[0].pos == p then Some(0)
    else match FindMineral(ms[1..], p)
      case None => None
      case Some(i) => Some(i + 1)
  }

  /** Setting claim flags never changes which mineral a position finds. */
  lemma {:induction false} FindMineralIgnoresClaims(ms: seq<Mineral>, ms': seq<Mineral>, p: Cell)
    requires |ms| == |ms'|
    requires forall i :: 0 <= i < |ms| ==> ms'[i].pos == ms[i].pos
    ensures FindMineral(ms', p) == FindMineral(ms, p)
  {
    if |ms| > 0 && ms[0].pos != p {
      FindMineralIgnoresClaims(ms[1..], ms'[1..], p);
    }
  }

  /** ms with the claim flag of mineral i set to claimed. */
  function SetClaim(ms: seq<Mineral>, i: nat, claimed: bool): (ms': seq<Mineral>)
    requires i < |ms|
    ensures |ms'| == |ms| && ms'[i].beingMined == claimed
    ensures forall j :: 0 <= j < |ms| ==> ms'[j].pos == ms[j].pos
    ensures forall j :: 0 <= j < |ms| && j != i ==> ms'[j] == ms[j]
  {
    ms[i := ms[i].(beingMined := claimed)]
  }

  /** The first building whose stored position is exactly p, if any. */
  function FirstAt(objs: seq<Building>, p: Cell): (r: Option<nat>)
    ensures r.Some? ==> r.value < |objs| && objs[r.value].pos == p
    ensures r.Some? ==> forall j :: 0 <= j < r.value ==> objs[j].pos != p
    ensures r.None? <==> forall j :: 0 <= j < |objs| ==> objs[j].pos != p
  {
    if |objs| == 0 then None
    else if objs[0].pos == p then Some(0)
    else match FirstAt(objs[1..], p)
      case None => None
      case Some(i) => Some(i + 1)
  }

  /** Some placed building's footprint shares a cell with the candidate cells. */
  ghost predicate Collides(objs: seq<Building>, cand: seq<Cell>)
  {
    exists k, a, b :: 0 <= k < |objs| && 0 <= a < |BuildingFootprint(objs[k])| && 0 <= b < |cand|
      && BuildingFootprint(objs[k])[a] == cand[b]
  }

  /**
    The deposit rule, looked up at the placement position itself: a miner needs
    the first mineral there to exist and be unclaimed; any other building needs
    no mineral there.
  */
  predicate MineralRule(ms: seq<Mineral>, kind: Kind, pos: Cell)
  {
    match FindMineral(ms, pos)
    case None => kind != Miner
    case Some(i) => kind == Miner && !ms[i].beingMined
  }

  /** The placement rule: no overlap with any placed building, and the deposit rule. */
  ghost predicate PlacementValid(objs: seq<Building>, ms: seq<Mineral>, kind: Kind, pos: Cell, rot: Quarter)
  {
    !Collides(objs, Footprint(kind, pos, rot)) && MineralRule(ms, kind, pos)
  }

  /** No two mineral deposits share a position. */
  ghost predicate DistinctMinerals(ms: seq<Mineral>)
  {
    forall i, j :: 0 <= i < j < |ms| ==> ms[i].pos != ms[j].pos
  }

  /**
    The deposit rule in terms of the deposits themselves. When deposits have
    distinct positions, a miner is allowed exactly when an unclaimed deposit
    lies at its position; any other building exactly when no deposit does.
  */
  lemma MineralRuleMeaning(ms: seq<Mineral>, kind: Kind, pos: Cell)
    requires DistinctMinerals(ms)
    ensures kind == Miner ==>
      (MineralRule(ms, kind, pos) <==> exists i :: 0 <= i < |ms| && ms[i].pos == pos && !ms[i].beingMined)
    ensures kind != Miner ==>
      (MineralRule(ms, kind, pos) <==> forall i :: 0 <= i < |ms| ==> ms[i].pos != pos)
  {
    if kind == Miner && exists i :: 0 <= i < |ms| && ms[i].pos == pos && !ms[i].beingMined {
      var i :| 0 <= i < |ms| && ms[i].pos == pos && !ms[i].beingMined;
      var r := FindMineral(ms, pos);
      assert r.Some? && r.value == i;
    }
  }

  /** The placement check, case by case: the three ways a placement is refused. */
  lemma PlacementRefusals(objs: seq<Building>, ms: seq<Mineral>, kind: Kind, pos: Cell, rot: Quarter)
    ensures !PlacementValid(objs, ms, kind, pos, rot) <==>
      (exists k, c :: 0 <= k < |objs| && c in BuildingFootprint(objs[k]) && c in Footprint(kind, pos, rot))
      || (kind == Miner && (FindMineral(ms, pos).None? || ms[FindMineral(ms, pos).value].beingMined))
      || (kind != Miner && FindMineral(ms, pos).Some?)
  {
    var cand := Footprint(kind, pos, rot);
    if exists k, c :: 0 <= k < |objs| && c in BuildingFootprint(objs[k]) && c in cand {
      var k, c :| 0 <= k < |objs| && c in BuildingFootprint(objs[k]) && c in cand;
      var a :| 0 <= a < |BuildingFootprint(objs[k])| && BuildingFootprint(objs[k])[a] == c;
      var b :| 0 <= b < |cand| && cand[b] == c;
      assert Collides(objs, cand);
    }
    if Collides(objs, cand) {
      var k, a, b :| 0 <= k < |objs| && 0 <= a < |BuildingFootprint(objs[k])| && 0 <= b < |cand|
        && BuildingFootprint(objs[k])[a] == cand[b];
      assert cand[b] in BuildingFootprint(objs[k]) && cand[b] in cand;
    }
  }
}
