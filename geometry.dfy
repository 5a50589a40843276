/**
  Grid geometry of the factory: the forward vector of a rotation, the cells a
  building occupies, and the intake (anchor) cell of a miner.

  World positions of buildings are integer coordinates on the ground plane
  (x, z); y is always 0 and is not represented. Buildings sit on multiples of
  GridSize, but the formulas below hold for any integer position.
*/
module Geometry {

  /** Spacing of the placement grid, in world units. */
  const GridSize: int := 2

  /** A point of the ground plane in integer world coordinates (y = 0). */
  datatype Cell = Cell(x: int, z: int)

  /** A 2D vector (x, y); its y component runs along the world z axis. */
  datatype Vec2 = Vec2(x: int, y: int)

  /** A preview or building rotation, as a number of quarter turns (0, 90, 180, 270 degrees). */
  type Quarter = q: int | 0 <= q < 4

  /** The rotation in degrees that a quarter-turn count stands for. */
  function QuarterDegrees(q: Quarter): real
  {
    90.0 * q as real
  }

  // ---------------------------------------------------------------------------
  // Rotation angles
  // ---------------------------------------------------------------------------

  /** Integer part of a real, rounding toward zero (as a C cast does). */
  function Trunc(x: real): (n: int)
    ensures x >= 0.0 ==> 0 <= n && n as real <= x < n as real + 1.0
    ensures x < 0.0 ==> n <= 0 && n as real - 1.0 < x <= n as real
  {
    if x >= 0.0 then x.Floor else -((-x).Floor)
  }

  /** C's fmod by 360: the remainder of deg / 360, with the sign of deg. */
  function FMod360(deg: real): (r: real)
    ensures deg >= 0.0 ==> 0.0 <= r < 360.0
    ensures deg < 0.0 ==> -360.0 < r <= 0.0
    ensures ((deg - r) / 360.0).Floor as real == (deg - r) / 360.0
  {
    var n := Trunc(deg / 360.0);
    WholeTurns(n);
    deg - 360.0 * n as real
  }

  /** n whole turns, divided back by 360, are the whole number n. */
  lemma WholeTurns(n: int)
    ensures (360.0 * n as real) / 360.0 == n as real
    ensures (n as real).Floor == n
  {
  }

  /** An angle in degrees brought into [0, 360): fmod by 360, plus 360 when negative. */
  function NormalizeDegrees(deg: real): (r: real)
    ensures 0.0 <= r < 360.0
    ensures var n := Trunc(deg / 360.0); r == deg - 360.0 * n as real || r == deg - 360.0 * (n - 1) as real
  {
    var m := FMod360(deg);
    var n := Trunc(deg / 360.0);
    if m < 0.0 then
      assert m + 360.0 == deg - 360.0 * (n - 1) as real;
      m + 360.0
    else
      m
  }

  function Abs(x: real): real
  {
    if x < 0.0 then -x else x
  }

  /**
    The forward vector of a rotation given in degrees: the angle is normalized
    into [0, 360) and compared with the four cardinal angles with a tolerance of
    one degree; an angle near none of them gets the 270-degree vector (0, 1).
  */
  function ForwardOfDegrees(deg: real): (f: Vec2)
  {
    var d := NormalizeDegrees(deg);
    if Abs(d - 0.0) < 1.0 || Abs(d - 360.0) < 1.0 then Vec2(1, 0)
    else if Abs(d - 90.0) < 1.0 then Vec2(0, -1)
    else if Abs(d - 180.0) < 1.0 then Vec2(-1, 0)
    else if Abs(d - 270.0) < 1.0 then Vec2(0, 1)
    else Vec2(0, 1)
  }

  /**
    The forward vector of a building or of the preview, tabulated per quarter
    turn; ForwardTable proves it is what ForwardOfDegrees gives for 90q degrees.
  */
  function Forward(q: Quarter): Vec2
  {
    match q
    case 0 => Vec2(1, 0)
    case 1 => Vec2(0, -1)
    case 2 => Vec2(-1, 0)
    case 3 => Vec2(0, 1)
  }

  /** The four axis-aligned unit vectors. */
  predicate IsAxisUnit(f: Vec2)
  {
    f == Vec2(1, 0) || f == Vec2(0, -1) || f == Vec2(-1, 0) || f == Vec2(0, 1)
  }

  /** Every angle, cardinal or not, yields an axis-aligned unit vector. */
  lemma ForwardOfDegreesIsAxisUnit(deg: real)
    ensures IsAxisUnit(ForwardOfDegrees(deg))
  {
  }

  /** An angle already in [0, 360) is left alone by normalization. */
  lemma NormalizeInRange(deg: real)
    requires 0.0 <= deg < 360.0
    ensures NormalizeDegrees(deg) == deg
  {
    assert Trunc(deg / 360.0) == 0;
  }

  /**
    Within the first turn, an angle less than one degree away from a cardinal
    angle 90k gets that cardinal's vector, and an angle at least one degree away
    from all of them gets the fallback (0, 1).
  */
  lemma ForwardOfDegreesClasses(deg: real)
    requires 0.0 <= deg < 360.0
    ensures Abs(deg) < 1.0 || deg > 359.0 ==> ForwardOfDegrees(deg) == Vec2(1, 0)
    ensures Abs(deg - 90.0) < 1.0 ==> ForwardOfDegrees(deg) == Vec2(0, -1)
    ensures Abs(deg - 180.0) < 1.0 ==> ForwardOfDegrees(deg) == Vec2(-1, 0)
    ensures Abs(deg - 270.0) < 1.0 ==> ForwardOfDegrees(deg) == Vec2(0, 1)
    ensures (1.0 <= deg <= 359.0 && Abs(deg - 90.0) >= 1.0 && Abs(deg - 180.0) >= 1.0
             && Abs(deg - 270.0) >= 1.0) ==> ForwardOfDegrees(deg) == Vec2(0, 1)
  {
    NormalizeInRange(deg);
  }

  /**
    The quarter turns 0, 90, 180 and 270 degrees map to (1,0), (0,-1), (-1,0)
    and (0,1), which are axis-aligned unit vectors.
  */
  lemma {:induction false} ForwardTable(q: Quarter)
    ensures ForwardOfDegrees(QuarterDegrees(q)) == Forward(q)
    ensures IsAxisUnit(Forward(q))
  {
    NormalizeInRange(QuarterDegrees(q));
  }

  /** The R key: add 90 degrees, and take 360 off when the sum reaches 360. */
  function NextPreviewDegrees(deg: real): real
  {
    var r := deg + 90.0;
    if r >= 360.0 then r - 360.0 else r
  }

  /** The R key on the quarter-turn count. */
  function NextQuarter(q: Quarter): Quarter
  {
    (q + 1) % 4
  }

  /**
    Rotating keeps the preview angle in [0, 360), and on a cardinal angle it is
    exactly one quarter turn with wrap-around.
  */
  lemma NextPreviewDegreesStep(deg: real, q: Quarter)
    ensures 0.0 <= deg < 360.0 ==> 0.0 <= NextPreviewDegrees(deg) < 360.0
    ensures NextPreviewDegrees(QuarterDegrees(q)) == QuarterDegrees(NextQuarter(q))
  {
  }

  // ---------------------------------------------------------------------------
  // Footprints
  // ---------------------------------------------------------------------------

  /**
    The cell i steps behind p along the forward vector f and j steps sideways
    along (f.y, f.x), the lateral axis the miner's 5x5 block is laid out on.
  */
  function BlockCell(p: Cell, f: Vec2, i: int, j: int): Cell
  {
    Cell(p.x - i * f.x * GridSize + j * f.y * GridSize,
         p.z - i * f.y * GridSize + j * f.x * GridSize)
  }

  /** The cell i steps behind p along f (the miner's 3-cell line). */
  function LineCell(p: Cell, f: Vec2, i: int): Cell
  {
    Cell(p.x - i * f.x * GridSize, p.z - i * f.y * GridSize)
  }

  /** The (i, j) steps of a miner's cells: the line i = 0..2, then the block i = 3..7, j = -2..2. */
  predicate InMinerShape(i: int, j: int)
  {
    (0 <= i < 3 && j == 0) || (3 <= i < 8 && -2 <= j <= 2)
  }

  /** Position in the footprint sequence of the block cell (i, j), in loop order. */
  function BlockIndex(i: int, j: int): int
  {
    3 + 5 * (i - 3) + (j + 2)
  }

  /** The cells a miner occupies: the 3-cell line, then the 5x5 block row by row. */
  function MinerFootprint(p: Cell, q: Quarter): seq<Cell>
  {
    var f := Forward(q);
    seq(3, i => LineCell(p, f, i)) + seq(25, k => BlockCell(p, f, 3 + k / 5, k % 5 - 2))
  }

  /** The cells a furnace occupies: its position and the cell behind it. */
  function FurnaceFootprint(p: Cell, q: Quarter): seq<Cell>
  {
    var f := Forward(q);
    [p, Cell(p.x - f.x * GridSize, p.z - f.y * GridSize)]
  }

  /** Two block cells coincide only for the same steps, when f is an axis unit vector. */
  lemma BlockCellInjective(p: Cell, f: Vec2, i: int, j: int, i': int, j': int)
    requires IsAxisUnit(f)
    requires BlockCell(p, f, i, j) == BlockCell(p, f, i', j')
    ensures i == i' && j == j'
  {
    if f == Vec2(1, 0) {
      assert BlockCell(p, f, i, j) == Cell(p.x - 2 * i, p.z + 2 * j);
      assert BlockCell(p, f, i', j') == Cell(p.x - 2 * i', p.z + 2 * j');
    } else if f == Vec2(0, -1) {
      assert BlockCell(p, f, i, j) == Cell(p.x - 2 * j, p.z + 2 * i);
      assert BlockCell(p, f, i', j') == Cell(p.x - 2 * j', p.z + 2 * i');
    } else if f == Vec2(-1, 0) {
      assert BlockCell(p, f, i, j) == Cell(p.x + 2 * i, p.z - 2 * j);
      assert BlockCell(p, f, i', j') == Cell(p.x + 2 * i', p.z - 2 * j');
    } else {
      assert BlockCell(p, f, i, j) == Cell(p.x + 2 * j, p.z - 2 * i);
      assert BlockCell(p, f, i', j') == Cell(p.x + 2 * j', p.z - 2 * i');
    }
  }

  /** The (i, j) steps of the k-th cell of a miner footprint, in the source's loop order. */
  function MinerStep(k: nat): (int, int)
  {
    if k < 3 then (k, 0) else (3 + (k - 3) / 5, (k - 3) % 5 - 2)
  }

  /** Steps of different footprint positions differ, and each lies in the miner shape. */
  lemma MinerStepInjective(a: nat, b: nat)
    requires a < 28 && b < 28 && a != b
    ensures InMinerShape(MinerStep(a).0, MinerStep(a).1)
    ensures MinerStep(a) != MinerStep(b)
  {
  }

  /** Every step of the miner shape is taken at some footprint position. */
  lemma MinerStepOnto(i: int, j: int)
    requires InMinerShape(i, j)
    ensures var k := if i < 3 then i else BlockIndex(i, j); 0 <= k < 28 && MinerStep(k) == (i, j)
  {
    if i >= 3 {
      var k := BlockIndex(i, j) - 3;
      assert k == 5 * (i - 3) + (j + 2);
      assert k / 5 == i - 3 && k % 5 == j + 2;
    }
  }

  /** The k-th cell of the miner footprint is the block cell of the k-th step. */
  lemma MinerFootprintAt(p: Cell, q: Quarter, k: nat)
    requires k < 28
    ensures |MinerFootprint(p, q)| == 28
    ensures MinerFootprint(p, q)[k] == BlockCell(p, Forward(q), MinerStep(k).0, MinerStep(k).1)
  {
  }

  /** Membership in the miner footprint, in both directions. */
  lemma MinerFootprintMembers(p: Cell, q: Quarter, c: Cell)
    ensures c in MinerFootprint(p, q) <==> exists i, j :: InMinerShape(i, j) && c == BlockCell(p, Forward(q), i, j)
  {
    var fp, f := MinerFootprint(p, q), Forward(q);
    if c in fp {
      var k :| 0 <= k < |fp| && fp[k] == c;
      MinerFootprintAt(p, q, k);
      if k < 3 {
        assert InMinerShape(k, 0);
      } else {
        MinerStepInjective(k, if k == 27 then 0 else 27);
      }
      var (i, j) := MinerStep(k);
      assert InMinerShape(i, j) && c == BlockCell(p, f, i, j);
    }
    if exists i, j :: InMinerShape(i, j) && c == BlockCell(p, f, i, j) {
      var i, j :| InMinerShape(i, j) && c == BlockCell(p, f, i, j);
      MinerStepOnto(i, j);
      var k := if i < 3 then i else BlockIndex(i, j);
      MinerFootprintAt(p, q, k);
      assert fp[k] == c;
    }
  }

  /** The miner footprint has 28 pairwise distinct cells. */
  lemma MinerFootprintDistinct(p: Cell, q: Quarter)
    ensures |MinerFootprint(p, q)| == 28
    ensures forall a, b :: 0 <= a < b < 28 ==> MinerFootprint(p, q)[a] != MinerFootprint(p, q)[b]
  {
    var fp, f := MinerFootprint(p, q), Forward(q);
    ForwardTable(q);
    forall a, b | 0 <= a < b < 28 ensures fp[a] != fp[b]
    {
      MinerFootprintAt(p, q, a);
      MinerFootprintAt(p, q, b);
      MinerStepInjective(a, b);
      if fp[a] == fp[b] {
        BlockCellInjective(p, f, MinerStep(a).0, MinerStep(a).1, MinerStep(b).0, MinerStep(b).1);
      }
    }
  }

  /** The furnace footprint is its position and the cell one step behind it, and the two differ. */
  lemma FurnaceFootprintShape(p: Cell, q: Quarter)
    ensures |FurnaceFootprint(p, q)| == 2
    ensures FurnaceFootprint(p, q)[0] == p
    ensures FurnaceFootprint(p, q)[1] == LineCell(p, Forward(q), 1)
    ensures FurnaceFootprint(p, q)[0] != FurnaceFootprint(p, q)[1]
  {
    ForwardTable(q);
  }

  // ---------------------------------------------------------------------------
  // Miner anchor
  // ---------------------------------------------------------------------------

  /**
    The direction a conveyor moves ore along, and the direction a miner emits
    it in: the forward vector turned a quarter, (-f.y, f.x).
  */
  function Perp(f: Vec2): Vec2
  {
    Vec2(-f.y, f.x)
  }

  /** The miner's intake cell: 5 steps behind its position and 3 steps along Perp. */
  function MinerAnchor(p: Cell, q: Quarter): Cell
  {
    var f := Forward(q);
    Cell(p.x - 5 * f.x * GridSize - 3 * f.y * GridSize,
         p.z - 5 * f.y * GridSize + 3 * f.x * GridSize)
  }

  /** The cell a miner emits ore from: one step back from the anchor along Perp. */
  function MinerOutlet(p: Cell, q: Quarter): Cell
  {
    var a, d := MinerAnchor(p, q), Perp(Forward(q));
    Cell(a.x - d.x * GridSize, a.z - d.y * GridSize)
  }

  /**
    The anchor lies just outside the miner's own footprint, and the outlet, the
    neighbouring cell towards the miner, is one of the footprint's cells.
  */
  lemma MinerAnchorBesideFootprint(p: Cell, q: Quarter)
    ensures MinerAnchor(p, q) !in MinerFootprint(p, q)
    ensures MinerOutlet(p, q) in MinerFootprint(p, q)
  {
    var f := Forward(q);
    ForwardTable(q);
    MinerFootprintMembers(p, q, MinerAnchor(p, q));
    MinerFootprintMembers(p, q, MinerOutlet(p, q));
    var side := if f.x == 0 then -1 else 1;
    assert MinerAnchor(p, q) == BlockCell(p, f, 5, 3 * side);
    assert MinerOutlet(p, q) == BlockCell(p, f, 5, 2 * side);
    if MinerAnchor(p, q) in MinerFootprint(p, q) {
      var i, j :| InMinerShape(i, j) && MinerAnchor(p, q) == BlockCell(p, f, i, j);
      BlockCellInjective(p, f, i, j, 5, 3 * side);
      assert false;
    }
  }
}
