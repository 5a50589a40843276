# Factotum factory core, modelled in Dafny

Factotum is a small factory-building game. The player places three kinds of
building on a ground grid with a spacing of 2 world units:

- **miners**, which sit on mineral deposits;
- **conveyor belts**;
- **furnaces**.

A miner that has a conveyor on its intake cell emits an ore particle every
5 seconds. Conveyors steer the particles, and a furnace takes in a particle
that comes close enough to one of its cells. This project models the game's
simulation core and proves properties of it:

- the grid geometry of buildings;
- the per-frame placement check;
- placing and removing buildings as mouse clicks do it;
- the per-frame emission and transport passes.

Rendering, the camera and the HUD are not modelled.

The model is in six modules, one per file:

- `Wrappers` (`wrappers.dfy`): the `Option` type that stands for the source's null pointers.
- `Geometry` (`geometry.dfy`):
  - the forward vector of a rotation, computed from degrees exactly as the source does, and tabulated per quarter turn;
  - the 28-cell miner footprint and the 2-cell furnace footprint;
  - the miner's anchor (intake) cell and its outlet cell;
  - the R-key rotation step.
- `Registry` (`registry.dfy`):
  - the building and deposit records;
  - footprints by kind;
  - the first-match lookups by exact position;
  - the placement rule (no shared cell, plus the deposit rule).
- `Transport` (`transport.dfy`): particles, and the emission and transport passes as functions on values, with the properties those passes keep.
- `Simulation` (`simulation.dfy`):
  - the whole state as a value `World`;
  - the effect of each command and of one frame;
  - the invariants these effects preserve: ids fresh and increasing, claim flags agreeing with the miners, footprints disjoint.
- `Factotum` (`factory.dfy`): the application object as a class `Factory`. Its fields are the source's state. Its methods update them in place with the source's loops. Each state-changing method is proved to have exactly the effect of the matching `Simulation` or `Transport` function. Each read-only scan (`FindDeposit`, `HasConveyorAt`, `CheckPlacement`, `ScanConveyors`, `ScanFurnaces`) is proved to return exactly the value of the matching `Registry` or `Transport` function.

Modelling choices:

- **Positions and rotations.**
  - Building positions are integer cells `(x, z)`; `y` is always 0.
  - A rotation is a quarter-turn count 0..3, because it starts at 0 and only ever moves by +90 degrees with wrap-around.
  - `Geometry.ForwardTable` proves that the per-quarter table matches the degree-based computation.
- **Particles** use real coordinates and real times.
- **Distances** `d <= r` are compared squared, as `d*d <= r*r`. The capture radius is 2/6. The look-ahead radius is 2.
- **Inputs.**
  - The clock (`glfwGetTime`) and the frame delta are parameters of a frame.
  - The aimed or clicked cell is an input of type `Option<Cell>`: `Some(cell)` when the view ray meets the ground, `None` otherwise. `None` resolves to the origin, as in the source.
  - The deposit positions read from the scene are also an input.
- **Kinds.** The per-kind lists the source rebuilds each frame (`placedMiners`, `placedConveyors`, `placedFurnaces`) are filtered views of `placedObjects` in registry order. The model scans the one registry and skips the other kinds, which visits the same buildings in the same order.
- **Cached flag.** A click trusts `isPlacementValid` as the last frame left it, as the source does. So footprint disjointness is proved only for a commit whose flag was computed for the same cell and state (`Simulation.CommitWithFreshFlagKeepsNoOverlap`). The flag goes stale in two ways. First, two clicks before the next frame both see the same flag: `Simulation.RepeatedClickOverlaps` shows them placing two conveyors on one cell. Second, a click recomputes its cell from the current camera (main.cpp:1691-1694), and mouse look (main.cpp:1652-1675) can turn the camera between frames, so even a single click may land on a cell the flag was not computed for. The model covers both, because a click command carries its own cell, independent of the one the last frame checked. The claim invariant needs no such condition, because a miner commit re-checks its deposit. `Simulation.RunKeepsInv` proves that invariant for every command sequence. Commands are free to interleave: a key press (select, rotate) may be followed by a click with no frame between. In the source these keys are read at the start of a frame whose validity check then runs with the new kind or rotation. So the model admits more orders than the source can produce, which only makes the invariant proofs cover more.
- **Skipped particle.** The transport loop erases a particle without stepping its index back. The model keeps this: the particle that moves into the freed slot waits until the next frame (`Transport.TransportAtSlot`).

## Model

| member | source | states |
|---|---|---|
| Geometry.FMod360 | src/main.cpp:1466 | the C `fmod` by 360: the angle minus the remainder is a whole number of turns, and the remainder takes the sign of the angle: it lies in [0, 360) for a non-negative angle and in (-360, 0] for a negative one |
| Geometry.NormalizeDegrees | src/main.cpp:1465-1468 | the normalized angle lies in [0, 360) and differs from the input by a whole number of turns (the truncated quotient, or one less) |
| Geometry.ForwardOfDegreesIsAxisUnit | src/main.cpp:1463-1483 | every angle, cardinal or not, yields one of the four axis unit vectors |
| Geometry.ForwardOfDegreesClasses | src/main.cpp:1470-1481 | within one turn, less than 1 degree from 0/360, 90, 180 or 270 gives (1,0), (0,-1), (-1,0) or (0,1); every other angle falls back to (0,1) |
| Geometry.ForwardTable | src/main.cpp:1463-1483 | the quarter turns 0, 90, 180, 270 degrees give (1,0), (0,-1), (-1,0), (0,1), so the tabulated forward vector is the source's |
| Geometry.NextPreviewDegreesStep | src/main.cpp:1033-1049 | the R key keeps the preview angle in [0, 360) and turns a cardinal angle 90q into 90((q+1) mod 4) |
| Geometry.MinerFootprintMembers | src/main.cpp:1485-1507 | a cell is in the miner footprint exactly when it is p - i*f*2 + j*(f.y, f.x)*2 for a step (i, j) of the line or the 5x5 block |
| Geometry.MinerFootprintDistinct | src/main.cpp:1485-1507 | the miner footprint has exactly 28 pairwise distinct cells |
| Geometry.FurnaceFootprintShape | src/main.cpp:1509-1521 | the furnace footprint is exactly [position, position - forward*2], two distinct cells |
| Geometry.MinerAnchorBesideFootprint | src/main.cpp:1523-1532 | the anchor (x - 5fx*2 - 3fy*2, z - 5fy*2 + 3fx*2) lies outside the miner's own footprint; the emission cell next to it lies inside |
| Registry.NewBuilding | src/main.cpp:1718-1748 | a placed building records the given id, kind, cell and rotation; a miner's timer starts at 0 and a furnace starts with no coal and no ore |
| Registry.FootprintSize | src/main.cpp:1301-1325 | footprints by kind have 28, 2 and 1 distinct cells and contain the building's own position |
| Registry.FindMineral | src/main.cpp:1678-1685 | the lookup returns the first deposit stored exactly at the position, and nothing exactly when no deposit is there |
| Registry.FindMineralIgnoresClaims | src/main.cpp:1678-1685 | setting claim flags never changes which deposit a position finds |
| Registry.SetClaim | src/main.cpp:1699-1703 | a claim update changes the flag of that one deposit and nothing else |
| Registry.FirstAt | src/main.cpp:1758-1762 | the removal search returns the first building stored exactly at the position, and nothing exactly when none is |
| Registry.MineralRuleMeaning | src/main.cpp:1341-1352 | with distinct deposits, a miner may go where an unclaimed deposit lies, and any other kind only where no deposit lies, both directions |
| Registry.PlacementRefusals | src/main.cpp:1293-1352 | the check fails exactly when a placed building's footprint (by its own kind and rotation) shares a cell with the candidate, or a miner lacks an unclaimed deposit at the placement cell, or another kind has a deposit there |
| Transport.FlowDirectionIsUnit | src/main.cpp:1220-1221 | the direction (-fy, 0, fx) taken from a rotation is an axis-aligned unit vector |
| Transport.EmittedGeometry | src/main.cpp:1219-1231 | an emitted particle starts at anchor - direction*2 with the miner's own direction and the current time, and that start cell belongs to the miner |
| Transport.EmissionObjects | src/main.cpp:1204-1237 | the emission pass keeps every id, kind, cell and rotation; a miner that fires has its timer set to the current time, and every other building is left exactly as it was |
| Transport.EmittedByMiners | src/main.cpp:1204-1237 | the pass emits exactly as many particles as there are firing miners (a miner whose timer ran out and whose anchor holds a conveyor), never more than there are buildings; each emitted particle is a firing miner's, and every firing miner's particle is among them |
| Transport.EmissionKeepsLayout | src/main.cpp:1204-1237 | emission changes no building's id, kind, cell or rotation |
| Transport.RouteMeaning | src/main.cpp:1245-1270 | the first conveyor in capture (2/6) or look-ahead (2) reach decides; only capture turns the particle, to that conveyor's flow direction; with none in reach it is off path, both directions |
| Transport.FurnaceHit | src/main.cpp:1272-1285 | the furnace scan returns the first furnace with a cell within 2/6 of the particle, and nothing exactly when no furnace has one |
| Transport.FateMeaning | src/main.cpp:1240-1290 | a particle is dropped exactly when no conveyor is in reach; it is consumed only when on path and by the first furnace in reach; a kept one has moved by dt along its old direction and heads either its old way or along the capturing conveyor's flow |
| Transport.FateOf | src/main.cpp:1272-1285 | a consumed particle names a registry index that holds a furnace |
| Transport.Erase | src/main.cpp:1288 | erasing slot i keeps the slots before i and shifts the ones after it down by one |
| Transport.AddOreCounts | src/main.cpp:1279 | one arrival adds exactly one timestamp to the furnaces' total |
| Transport.RouteIgnoresPayload | src/main.cpp:1247-1270 | the conveyor scan reads only kinds, cells and rotations, so ore arrivals earlier in the pass do not change it |
| Transport.FurnaceHitIgnoresPayload | src/main.cpp:1272-1285 | the furnace scan reads only kinds, cells and rotations |
| Transport.ApplyFacts | src/main.cpp:1272-1290 | one slot: a consumed particle adds one arrival stamped now to one furnace; a dropped or consumed one is erased and the rest shift down; a kept one is stored in place |
| Transport.TransportPrefix | src/main.cpp:1240-1291 | the transport pass never grows the particle list and never touches slots it has passed |
| Transport.TransportOre | src/main.cpp:1240-1291 | the pass changes the registry only by furnace arrivals stamped now, and arrivals plus survivors never exceed the particles it started with |
| Transport.TransportSurvivors | src/main.cpp:1240-1291 | every particle left after the pass is an original one, unchanged or kept with its own fate |
| Transport.TransportAtSlot | src/main.cpp:1240-1290 | a kept particle stays in its slot; after an erase the next particle moves into the slot untouched, because the index is not stepped back |
| Simulation.Deposits | src/main.cpp:556-559 | the loaded deposits start unclaimed, and a position finds a deposit exactly when it is one of the scene's deposit cells |
| Simulation.MissedRayActsAtOrigin | src/main.cpp:1543-1555 | a click whose view ray misses the ground does exactly what a click at the origin does: an accepted left click places a building at Cell(0, 0), and a right click removes the building stored there |
| Simulation.CommitEffect | src/main.cpp:1687-1752 | an accepted click appends exactly one building with the old next id, increments the counter, leaves earlier buildings and the particles alone and, for a miner, claims the deposit at the cell; placing mode, selection, rotation and the cached flag stay as they were; a rejected click changes nothing |
| Simulation.AppendKeepsIds | src/main.cpp:1722 | taking the id from the counter and incrementing it keeps ids increasing and below the counter |
| Simulation.AppendMinerKeepsClaims | src/main.cpp:1697-1727 | placing a miner on a free deposit and claiming it keeps claims in agreement with the miners |
| Simulation.AppendOtherKeepsClaims | src/main.cpp:1729-1748 | placing a conveyor or furnace leaves claims in agreement |
| Simulation.CommitKeepsInv | src/main.cpp:1687-1752 | every click, with whatever flag, keeps ids fresh and each deposit flagged exactly while one miner stands on it, with no two miners on one cell |
| Simulation.CommitWithFreshFlagKeepsNoOverlap | src/main.cpp:1293-1336 | a commit whose flag was computed for that cell and state keeps all footprints pairwise disjoint |
| Simulation.PlacementValidMeansCellFree | src/main.cpp:1293-1336 | a valid placement never lands on a placed building's own cell |
| Simulation.RemoveUndoesCommit | src/main.cpp:1687-1790 | removing what a click just placed restores the registry and the deposits; only the id counter moved on, so ids are never reused |
| Simulation.RemoveEffect | src/main.cpp:1753-1790 | removal erases only the first building stored exactly at the cell, keeps the others in order, and releases the deposit there if it erased a miner; placing mode, selection, rotation and the cached flag stay; outside placing mode or with no match nothing changes |
| Simulation.RemoveKeepsInv | src/main.cpp:1758-1788 | removal keeps ids fresh and claims in agreement with the remaining miners |
| Simulation.RemoveKeepsNoOverlap | src/main.cpp:1758-1788 | removal keeps the remaining footprints pairwise disjoint |
| Simulation.LayoutKeepsInvariants | src/main.cpp:1204-1291 | what the invariants read (ids, kinds, cells, rotations, deposits) is what a frame does not change |
| Simulation.FrameKeepsInvariants | src/main.cpp:1204-1356 | a frame keeps every invariant, the deposits and the id counter, and adds at most one particle per building |
| Simulation.PerformKeepsInv | src/main.cpp:925-1049 | every key or mouse command and every frame keeps the invariants |
| Simulation.RunKeepsInv | src/main.cpp:1687-1790 | through any sequence of commands and frames, ids stay fresh and every deposit is flagged exactly while one miner stands on it |
| Simulation.InitialInv | src/main.cpp:110-121 | the start-up state satisfies the invariants and has no overlap |
| Simulation.RepeatedClickOverlaps | src/main.cpp:1695 | two clicks on one cell before the next frame both pass the cached flag and leave two conveyors on that cell |
| Factotum.Factory.constructor | src/main.cpp:556-559 | start-up loads the deposits unclaimed, with nothing placed, placing off, the miner selected, rotation 0 and the flag set |
| Factotum.Factory.SelectItem | src/main.cpp:929-984 | keys 1, 2 and 3 change only the selected kind |
| Factotum.Factory.TogglePlacing | src/main.cpp:1016-1031 | key T flips placing mode and changes nothing else |
| Factotum.Factory.RotatePreview | src/main.cpp:1033-1049 | key R moves the rotation one quarter turn and agrees with the source's +90 degrees and -360 wrap |
| Factotum.Factory.FindDeposit | src/main.cpp:1678-1685 | the deposit search loop returns exactly the first deposit at the position |
| Factotum.Factory.HasConveyorAt | src/main.cpp:1211-1217 | the anchor search loop finds a conveyor exactly when one is stored at the cell |
| Factotum.Factory.CheckPlacement | src/main.cpp:1293-1352 | the nested comparison loops and the deposit test compute exactly the placement rule, and change nothing |
| Factotum.Factory.ScanConveyors | src/main.cpp:1247-1270 | the conveyor loop with its early exits returns exactly what the routing rule decides |
| Factotum.Factory.ScanFurnaces | src/main.cpp:1272-1285 | the furnace loops return exactly the first furnace that takes the particle in |
| Factotum.Factory.EmitFrom | src/main.cpp:1205-1236 | the emission step for one building appends the emitted particle and restarts the timer exactly when the miner fires |
| Factotum.Factory.EmitOre | src/main.cpp:1204-1237 | the emission loop has exactly the effect of the emission pass |
| Factotum.Factory.MoveParticle | src/main.cpp:1241-1290 | the in-place move, redirect, furnace hand-off and erase of one particle carry out exactly that particle's fate |
| Factotum.Factory.MoveOre | src/main.cpp:1239-1291 | the index loop with erase has exactly the effect of the transport pass |
| Factotum.Factory.UpdateFrame | src/main.cpp:1204-1356 | a frame runs emission, transport and the validity check, and keeps the invariants and disjointness |
| Factotum.Factory.LeftClick | src/main.cpp:1689-1752 | the left-click branch has exactly the effect of a commit and keeps the invariants |
| Factotum.Factory.RemoveAt | src/main.cpp:1758-1788 | the search-and-erase loop has exactly the effect of a removal |
| Factotum.Factory.RightClick | src/main.cpp:1753-1790 | the right-click branch has exactly the effect of a removal and keeps the invariants and disjointness |

## Left out

- Vulkan setup, pipelines, descriptor sets and command-buffer submission (`submitCommandBuffer`) are rendering side effects. They are not modelled, and neither is a "needs redraw" flag.
- Uniform and matrix computation, preview transforms, HUD and text labels are floating-point drawing code. They are not modelled.
- Camera motion, mouse look, the looking vector and the projection and view matrices are input handling and trigonometry. They are not modelled.
- The ray-plane intersection and `round` snapping of `calculateGroundPlacementPosition` are floating point. The snapped cell is an input; only the origin fallback is modelled (`Simulation.MissedRayActsAtOrigin`).
- Keyboard debounce polling is reduced to discrete commands.
- The T key returns early from the frame function, which skips that frame's emission, transport and validity check. In the model a toggle is a command with no frame after it.
- Scene loading is not modelled. The source reads exactly four deposit positions; the model takes any sequence of deposit cells.
- Deposits are compared on (x, z) only; the source compares full 3D positions. Deposits off the ground plane or off the grid are not modelled.
- `remainingAmount` on deposits and the furnaces' `coal` lists are never read or updated by the core, so they are not modelled beyond the empty `coal` list.
- Rotations are stored in radians in the source and turned into degrees by `glm::degrees` before the forward-vector test. The model keeps them in degrees; the rounding of that conversion falls inside the one-degree tolerance.
- Floating-point rounding is not modelled: `float` times, positions and distances are real numbers.
- The source's `abs` on doubles in the forward-vector test is modelled as the real absolute value.
- Building rotations other than multiples of 90 degrees cannot arise, since the preview starts at 0 and only turns in quarter turns. The fallback branch of the forward vector is still proved (`Geometry.ForwardOfDegreesClasses`).
- The id counter is an unbounded natural number. The source's `int` would overflow after 2^31 placements.
- The `std::cout` diagnostics are not modelled.
- Simulation.CommitWithFreshFlagKeepsNoOverlap: disjointness is proved only when the cached flag matches the current cell and state. The source does not guarantee more, as `Simulation.RepeatedClickOverlaps` shows.
