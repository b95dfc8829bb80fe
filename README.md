# Pipe screensaver core, in Dafny

This project models the logic at the heart of a Unity "3D pipes" screensaver. A fixed-size
occupancy grid records which integer cells are taken. A generator grows pipes through the grid
as random walks that never overlap. Each pipe starts at the first free cell in scan order. At
every step the walk picks an available axis neighbour, other than the cell it came from,
emits a cylinder towards it and reserves it. The walk stops at a dead end or at the segment
limit, and then emits a closing sphere. A small demo component performs a simpler walk of
bounded length from the centre of a fresh grid.

The modules follow the program's structure:

- `Lattice` holds integer cells (`Vec3`, Unity's `Vector3Int`), the six axis directions in
  the order the grid enumerates them, the z-then-y-then-x scan order and the size clamp.
- `Occupancy` is the grid's behaviour as functions of a size and a set of reserved cells:
  available cells, the ordered neighbour enumeration, the first free cell, the occupied
  cells in scan order, and the count of free cells.
- `CellGrid` holds the class `CellGrid3D`, over a three-dimensional `bool` array. A ghost
  set `Occ` is tied to the array by `Valid()`. Every method is proved against `Occupancy`.
  `SpawnGrid` is the same class without `Clear`: its statements are those of `CellGrid3D`,
  with XML doc comments added and so at other line numbers. One class models both. The rows
  below cite `CellGrid3D.cs` for the class methods; most `Occupancy` rows cite the matching
  lines of `SpawnGrid.cs`.
- `PipeWalk` is `GrowPipe` as a value. `Walk` and `Grow` give the emitted events
  (`Joint(cell)` for a sphere, `Segment(cell, dir)` for a cylinder), the path and the
  reserved cells, with the lemmas about them.
- `Corridor` works the pipe walk through on an n x 1 x 1 grid, where every step is forced.
- `PipeSession` is `RunPipes` as a value: up to `maxPipes` pipes until the grid is full.
- `Pipes` holds the class `PipeGenerator`. Its `GrowPipe` and `RunPipes` loops are proved
  to emit exactly the events of `Grow` and `Session`, and to reserve exactly their cells.
- `Demo` covers `CellSpawnerDemo.Rebuild`. `Sampling` and `Rebuilt` are the walk as a
  value. The class `CellSpawnerDemo` is the imperative loop. Both take the backtrack test as
  a parameter: `SumTest` is the comparison the code makes, `DifferenceTest` the corrected
  one (see Findings).

`Random.Range(0, n)` is an oracle argument `pick(k, n)`, required to lie in `[0, n)`. No
claim is made about its distribution.

Where the program's own settings tooltips and its code disagree, the model follows the
code:

- The tooltip on `maxPipes` (PipeSettings.cs:24) speaks of the system resetting the grid
  after that many pipes. `RunPipes` never calls `Clear`: it stops, and the grid stays as it is.
- The tooltip on `spherePrefab` (PipeSettings.cs:28) speaks of spheres at changes of
  direction. `GrowPipe` places spheres only at the two ends of a pipe, so on a 1 x 1 x 1 grid
  a pipe is two spheres at the single cell (`PipeWalk.SingleCellExample`).

## Model

| member | source | states |
|---|---|---|
| `Lattice.ClampSize` | Assets/Script/CellGrid3D.cs:14-18 | every dimension of the clamped size is at least 1 and their product is at least 1; a dimension that is already at least 1 is kept, any other becomes 1 |
| `Lattice.DirectionsAreUnitAxis` | Assets/Script/CellGrid3D.cs:41-46 | the six enumerated directions are exactly the vectors of length one along one axis |
| `Lattice.ScanOrderTotal` | Assets/Script/CellGrid3D.cs:60-62 | the z, then y, then x scan order is irreflexive, total, asymmetric and transitive |
| `Occupancy.Free` | Assets/Script/SpawnGrid.cs:41-42 | the definition of an available cell: in bounds and not reserved; `CellGrid.CellGrid3D.IsAvailable` is proved equal to it |
| `Occupancy.OccupyIn` | Assets/Script/SpawnGrid.cs:47-50 | the reserved cells after `Occupy`: the cell is added when in bounds, otherwise nothing changes; `Occupancy.OccupyFacts` states its properties |
| `Occupancy.FreeNeighbours` | Assets/Script/SpawnGrid.cs:55-63 | the neighbour enumeration: each of the six axis neighbours in turn, kept when available; `Occupancy.FreeNeighboursFacts` states its properties |
| `Occupancy.FirstFree` | Assets/Script/SpawnGrid.cs:80-88 | the z, y, x scan for the first available cell, or none; `Occupancy.FirstFreeSpec` and `Occupancy.FirstFreeUnique` characterise it |
| `Occupancy.AllOccupiedCells` | Assets/Script/SpawnGrid.cs:68-74 | the z, y, x scan listing the reserved cells; `Occupancy.AllOccupiedSpec` characterises it |
| `Occupancy.OccupyFacts` | Assets/Script/SpawnGrid.cs:47-50 | after reserving `c` the reserved cells are the old ones plus `c` exactly when `c` is in bounds; `c` is then not available; reserving twice equals reserving once; well-formedness is kept |
| `Occupancy.FreeNeighboursFacts` | Assets/Script/SpawnGrid.cs:55-63 | the neighbour enumeration has at most 6 cells, never the cell itself and no repeats; it is sorted by direction order (+x, -x, +y, -y, +z, -z); a cell is in it iff it is available and one axis step away |
| `Occupancy.FirstFreeSpec` | Assets/Script/SpawnGrid.cs:80-88 | the scan finds nothing iff every in-bounds cell is reserved; what it finds is in bounds, free, and every cell before it in scan order is reserved |
| `Occupancy.FirstFreeUnique` | Assets/Script/SpawnGrid.cs:82-85 | a free cell with every cell before it in scan order reserved is the one the scan finds |
| `Occupancy.FirstFreeOfEmpty` | Assets/Script/CellGrid3D.cs:58-66 | on an empty grid of positive size the scan finds the origin |
| `Occupancy.AllOccupiedSpec` | Assets/Script/SpawnGrid.cs:68-74 | the occupied-cell listing holds each reserved cell exactly once, nothing else, in strictly increasing scan order, and has as many entries as there are reserved cells |
| `Occupancy.OccupyShrinksFree` | Assets/Script/CellGrid3D.cs:34-37 | reserving a free cell lowers the number of free cells by exactly one |
| `Occupancy.ReserveFreeCells` | Assets/Script/PipeGenerator.cs:62-67 | reserving k distinct free cells adds k reserved cells and removes k free ones |
| `CellGrid.CellGrid3D.constructor` | Assets/Script/CellGrid3D.cs:12-20 | the grid has the clamped size, a fresh array of that shape, and no cell reserved |
| `CellGrid.CellGrid3D.InBounds` | Assets/Script/CellGrid3D.cs:23-26 | a cell is in bounds iff each coordinate indexes the array's matching dimension |
| `CellGrid.CellGrid3D.IsAvailable` | Assets/Script/CellGrid3D.cs:30-31 | available iff in bounds and not reserved; an available cell is in bounds |
| `CellGrid.CellGrid3D.Occupy` | Assets/Script/CellGrid3D.cs:34-37 | the reserved set becomes the old one plus the cell when it is in bounds; array entries change only at that cell |
| `CellGrid.CellGrid3D.AvailableNeighbouringCell` | Assets/Script/CellGrid3D.cs:39-47 | returns the ordered free neighbours described by `Occupancy.FreeNeighboursFacts`; the grid is unchanged (no `modifies`) |
| `CellGrid.CellGrid3D.YieldIfAvailable` | Assets/Script/CellGrid3D.cs:41 | one enumeration line appends the cell exactly when it is available |
| `CellGrid.CellGrid3D.AllOccupied` | Assets/Script/CellGrid3D.cs:49-55 | returns exactly the reserved cells, each once, in strictly increasing scan order |
| `CellGrid.CellGrid3D.PickFirstFree` | Assets/Script/CellGrid3D.cs:58-66 | false iff every in-bounds cell is reserved, and then the cell is the default (0, 0, 0); on true the cell is available and every earlier cell in scan order is reserved; the grid is unchanged |
| `CellGrid.CellGrid3D.Clear` | Assets/Script/CellGrid3D.cs:68-74 | afterwards no cell is reserved and the scan finds the origin |
| `PipeWalk.WithoutBacktrack` | Assets/Script/PipeGenerator.cs:54 | the `RemoveAll` of the neighbour list: drops each cell whose step from the current cell is `-prevDirection`; `PipeWalk.WithoutBacktrackMembers` and `PipeWalk.WithoutBacktrackKeepsAll` state its properties |
| `PipeWalk.Candidates` | Assets/Script/PipeGenerator.cs:53-54 | the free neighbours after `RemoveAll`; `PipeWalk.CandidatesAreFreeSteps` and `PipeWalk.BacktrackFilterInert` state its properties |
| `PipeWalk.NextCell` | Assets/Script/PipeGenerator.cs:62-63 | the candidate at index `Random.Range(0, count)`; `PipeWalk.NextCellIsFreeStep` states its properties |
| `PipeWalk.Trace` | Assets/Script/PipeGenerator.cs:63-75 | the events along a path: a cylinder per step, then the closing sphere; `PipeWalk.TraceFacts` states its properties |
| `PipeWalk.Walk` | Assets/Script/PipeGenerator.cs:49-75 | the `while` loop of `GrowPipe` as a value: events, path and reserved cells from the current cell on; `PipeWalk.WalkShape`, `PipeWalk.WalkEntersFreeCells`, `PipeWalk.WalkReserves`, `PipeWalk.WalkStopsHere` and `PipeWalk.WalkAdvances` state its properties |
| `PipeWalk.Grow` | Assets/Script/PipeGenerator.cs:37-76 | `GrowPipe` as a value: reserve the start, emit its sphere, then `Walk`; `PipeWalk.GrowEvents`, `PipeWalk.GrowCells` and `PipeWalk.GrowIgnoresBacktrackFilter` state its properties |
| `PipeWalk.WithoutBacktrackMembers` | Assets/Script/PipeGenerator.cs:54 | the filter keeps exactly the cells whose step from the current cell is not `-prevDirection`, and never lengthens the list |
| `PipeWalk.WithoutBacktrackKeepsAll` | Assets/Script/PipeGenerator.cs:54 | when no cell matches `-prevDirection` the filter returns the list unchanged |
| `PipeWalk.CandidatesAreFreeSteps` | Assets/Script/PipeGenerator.cs:53-54 | every candidate is available, one axis step away, and not the backtrack direction |
| `PipeWalk.NextCellIsFreeStep` | Assets/Script/PipeGenerator.cs:62-63 | the drawn next cell is available, one axis step away, and not the backtrack direction |
| `PipeWalk.TraceFacts` | Assets/Script/PipeGenerator.cs:63-75 | a path's events are one cylinder per step, from each cell along its step, then one sphere at the last cell |
| `PipeWalk.WalkShape` | Assets/Script/PipeGenerator.cs:51-75 | a walk's path starts at the current cell and moves by unit axis steps; its events are the path's trace; it has at most `maxSegmentsPerPipe - segments` steps |
| `PipeWalk.WalkEntersFreeCells` | Assets/Script/PipeGenerator.cs:53-67 | every cell a walk enters was free when the walk began, and no cell is entered twice |
| `PipeWalk.WalkReserves` | Assets/Script/PipeGenerator.cs:67 | a walk reserves exactly the cells it enters |
| `PipeWalk.GrowEvents` | Assets/Script/PipeGenerator.cs:37-76 | a pipe with k segments emits a sphere at the start, k unit-axis cylinders along its path and a sphere at its last cell; so exactly two spheres, and k is at most `maxSegmentsPerPipe` |
| `PipeWalk.GrowCells` | Assets/Script/PipeGenerator.cs:43-67 | from a free start, a pipe with k segments reserves k + 1 distinct cells that were all free, and the free count drops by k + 1 |
| `PipeWalk.NoDirectionMatchesOnlyCur` | Assets/Script/PipeGenerator.cs:49-54 | with no previous direction the filter can only match the current cell itself |
| `PipeWalk.DirectionMatchesOnlyPredecessor` | Assets/Script/PipeGenerator.cs:54 | while the cell `currentCell - prevDirection` is reserved, no available cell has the step `-prevDirection`, so the filter removes none |
| `PipeWalk.BacktrackFilterInert` | Assets/Script/PipeGenerator.cs:49-54 | on the first step, or whenever the predecessor is reserved, the candidates equal the free neighbours |
| `PipeWalk.BlockedAfterStep` | Assets/Script/PipeGenerator.cs:63-69 | after a step from a reserved cell, the predecessor of the new cell is reserved |
| `PipeWalk.WalkIgnoresBacktrackFilter` | Assets/Script/PipeGenerator.cs:51-73 | while the predecessor is reserved, the walk equals the walk with no backtrack filter at all |
| `PipeWalk.GrowIgnoresBacktrackFilter` | Assets/Script/PipeGenerator.cs:37-76 | every pipe equals the pipe grown with no backtrack filter: the filter never removes a candidate |
| `PipeWalk.WalkStopsHere` | Assets/Script/PipeGenerator.cs:51-60 | at a dead end or at the segment limit the walk emits only the closing sphere and reserves nothing more |
| `PipeWalk.WalkAdvances` | Assets/Script/PipeGenerator.cs:62-71 | otherwise it emits a cylinder towards the drawn cell, then continues from that cell with it reserved |
| `PipeWalk.WalkForced` | Assets/Script/PipeGenerator.cs:62-71 | with a single candidate the walk takes it whatever the draw |
| `PipeWalk.GrowStart` | Assets/Script/PipeGenerator.cs:43-49 | a pipe reserves its start and emits the start sphere before the walk begins, with no previous direction and no segments |
| `PipeWalk.SingleCellExample` | Assets/Script/PipeGenerator.cs:43-59 | on a 1 x 1 x 1 grid a pipe emits two spheres at the origin and nothing else |
| `Corridor.CorridorNeighbours` | Assets/Script/PipeGenerator.cs:53 | along an n x 1 x 1 corridor with the prefix taken, the only free neighbour is the next cell, if any |
| `Corridor.CorridorCandidates` | Assets/Script/PipeGenerator.cs:53-54 | the backtrack filter removes nothing along the corridor |
| `Corridor.CorridorWalk` | Assets/Script/PipeGenerator.cs:51-75 | from position i the walk runs straight along +x to the last cell |
| `Corridor.CorridorPipe` | Assets/Script/PipeGenerator.cs:37-76 | on an n x 1 x 1 grid a pipe from the origin with room for n - 1 segments runs straight to the far end, whatever the draws |
| `Corridor.CorridorExample` | Assets/Script/PipeGenerator.cs:37-76 | on a 3 x 1 x 1 grid the only event sequence is sphere (0,0,0), cylinder (0,0,0) +x, cylinder (1,0,0) +x, sphere (2,0,0) |
| `PipeSession.Session` | Assets/Script/PipeGenerator.cs:26-35 | `RunPipes` as a value: up to `maxPipes` pipes, each grown from the first free cell, stopping early on a full grid; the `PipeSession` lemmas below state its properties |
| `PipeSession.SessionStep` | Assets/Script/PipeGenerator.cs:28-33 | while pipes remain and the scan finds a free cell, the run grows a pipe there, then continues with that pipe's cells reserved |
| `PipeSession.SessionOnFullGrid` | Assets/Script/PipeGenerator.cs:30-31 | on a full grid the run stops at once: no pipe, nothing reserved |
| `PipeSession.SessionBound` | Assets/Script/PipeGenerator.cs:28 | a run grows at most `maxPipes` pipes |
| `PipeSession.SessionEndsFull` | Assets/Script/PipeGenerator.cs:28-34 | a run that grows fewer than `maxPipes` pipes ends with every cell reserved |
| `PipeSession.SessionCells` | Assets/Script/PipeGenerator.cs:26-35 | the pipes of a run never overlap; each enters only cells free at the start of the run; the run reserves exactly those cells; the free count drops by their number |
| `PipeSession.SessionJoints` | Assets/Script/PipeGenerator.cs:26-35 | a run emits exactly two spheres per pipe |
| `PipeSession.SessionPipesFitGrid` | Assets/Script/PipeGenerator.cs:26-35 | a run grows no more pipes than there are free cells |
| `Pipes.PipeGenerator.constructor` | Assets/Script/PipeGenerator.cs:12-15 | the generator keeps the settings and the shared grid and has emitted nothing |
| `Pipes.PipeGenerator.SpawnSphere` | Assets/Script/PipeGenerator.cs:78-88 | appends one sphere at the cell to the emitted events |
| `Pipes.PipeGenerator.SpawnCylinder` | Assets/Script/PipeGenerator.cs:90-112 | appends one cylinder from the cell along the direction to the emitted events |
| `Pipes.PipeGenerator.GrowPipe` | Assets/Script/PipeGenerator.cs:37-76 | the loop emits exactly the events of `Grow` and leaves the grid holding exactly its reserved cells; `PipeWalk.GrowEvents` and `PipeWalk.GrowCells` say what those are |
| `Pipes.PipeGenerator.RunPipes` | Assets/Script/PipeGenerator.cs:26-35 | the loop emits exactly the events of `Session` and leaves the grid holding exactly its reserved cells; the `PipeSession` lemmas say what those are |
| `Demo.LooksBack` | Assets/Script/CellSpawnerDemo.cs:39-40 | whether a neighbour is taken for the backtrack cell: with `SumTest` the comparison as written, `nextCell + currentCell == -prevDirection`; with `DifferenceTest` the corrected `nextCell - currentCell == -prevDirection` |
| `Demo.Options` | Assets/Script/CellSpawnerDemo.cs:36-42 | `options` after the `foreach`, for either test; `Demo.OptionsMembers`, `Demo.OptionsWithoutAvoid` and `Demo.OptionsIntended` state its properties |
| `Demo.Sampling` | Assets/Script/CellSpawnerDemo.cs:31-49 | the `for` loop as a value, for either test: path and reserved cells; `Demo.SamplingShape`, `Demo.SamplingCells`, `Demo.SamplingStopsHere` and `Demo.SamplingAdvances` state its properties |
| `Demo.Centre` | Assets/Script/CellSpawnerDemo.cs:28 | the start cell, `gridSize / 2` per axis with C# division; `Demo.CentreInside` says when it lies in the grid |
| `Demo.Rebuilt` | Assets/Script/CellSpawnerDemo.cs:22-49 | `Rebuild` as a value. With `SumTest` it is the method as written, and `Demo.SumTestStopsEarly` exhibits the bug on it. With `DifferenceTest` it is the corrected method. `Demo.RebuiltShape` and `Demo.RebuiltCells` hold for both tests |
| `Demo.OptionsMembers` | Assets/Script/CellSpawnerDemo.cs:36-42 | `options` holds at most 6 cells; a cell is in it iff it is available, one axis step away, and not skipped by the backtrack test |
| `Demo.OptionsWithoutAvoid` | Assets/Script/CellSpawnerDemo.cs:37-41 | with `avoidBacktrack` false, `options` equals the available neighbours, in order |
| `Demo.OptionsIntended` | Assets/Script/CellSpawnerDemo.cs:39-41 | with the difference test, `options` equals the candidates `GrowPipe` keeps |
| `Demo.IntendedFilterKeepsNeighbours` | Assets/Script/CellSpawnerDemo.cs:39-41 | with the difference test and the predecessor reserved, nothing is skipped |
| `Demo.SamplingShape` | Assets/Script/CellSpawnerDemo.cs:34-47 | the walk starts at the current cell, moves by unit axis steps and takes at most `sampleLength - i` of them |
| `Demo.SamplingCells` | Assets/Script/CellSpawnerDemo.cs:41-48 | each cell the walk enters was free and is entered once, and the walk reserves exactly those cells |
| `Demo.SamplingStopsHere` | Assets/Script/CellSpawnerDemo.cs:34-43 | after `sampleLength` iterations, or when `options` is empty, the walk stops where it is |
| `Demo.SamplingAdvances` | Assets/Script/CellSpawnerDemo.cs:45-48 | otherwise it steps to the drawn option, setting `prevDirection` to that step, and reserves it |
| `Demo.SamplingIsWalk` | Assets/Script/CellSpawnerDemo.cs:34-48 | with the difference test the demo's walk is the pipe generator's walk, with `sampleLength` as the segment limit |
| `Demo.SamplingWithoutAvoid` | Assets/Script/CellSpawnerDemo.cs:34-48 | with `avoidBacktrack` false the demo's walk is the walk with no backtrack filter |
| `Demo.HalfTowardZero` | Assets/Script/CellSpawnerDemo.cs:28 | C# integer halving rounds toward zero: twice the result is the input or one nearer to zero, and the result lies between zero and the input |
| `Demo.CentreInside` | Assets/Script/CellSpawnerDemo.cs:24-28 | the start cell lies in the clamped grid iff no requested dimension is below -1 |
| `Demo.RebuiltShape` | Assets/Script/CellSpawnerDemo.cs:22-49 | a rebuild's path starts at the centre, moves by unit axis steps and has at most `sampleLength` steps |
| `Demo.RebuiltCells` | Assets/Script/CellSpawnerDemo.cs:22-49 | a rebuild never enters a cell twice and stays in bounds; it reserves the start (when in bounds) plus the cells entered, at most `sampleLength` + 1 cells |
| `Demo.RebuiltIgnoresAvoid` | Assets/Script/CellSpawnerDemo.cs:34-48 | with the difference test, a rebuild with `avoidBacktrack` set equals one without it |
| `Demo.TestsDisagree` | Assets/Script/CellSpawnerDemo.cs:39-40 | the sum test skips a cell the difference test keeps only when the walk stands on the unit cell `-prevDirection` and the cell is the origin; it keeps the backtrack cell only away from the origin |
| `Demo.SumTestSkipsFreeNeighbour` | Assets/Script/CellSpawnerDemo.cs:39-43 | on a 5 x 1 x 1 grid with (2,0,0) and (1,0,0) taken, standing at (1,0,0) after a step along -x, the only available neighbour is (0,0,0); the sum test leaves no option, while the difference test keeps (0,0,0) |
| `Demo.SumTestStopsEarly` | Assets/Script/CellSpawnerDemo.cs:22-49 | a 5 x 1 x 1 rebuild of two samples whose first draw takes -x reserves (2,0,0) and (1,0,0) as written, and also (0,0,0) with the difference test |
| `Demo.CellSpawnerDemo.constructor` | Assets/Script/CellSpawnerDemo.cs:6-15 | the component holds the given size, sample length and backtrack flag, and no grid |
| `Demo.CellSpawnerDemo.CollectOptions` | Assets/Script/CellSpawnerDemo.cs:36-42 | the `foreach` builds exactly the `options` that `Options` describes with the same test: `SumTest` gives the loop as written, `DifferenceTest` the corrected one |
| `Demo.CellSpawnerDemo.SampleWalk` | Assets/Script/CellSpawnerDemo.cs:31-49 | the `for` loop reserves exactly the cells of `Sampling` with the same test, as written (`SumTest`) or corrected (`DifferenceTest`) |
| `Demo.CellSpawnerDemo.Rebuild` | Assets/Script/CellSpawnerDemo.cs:22-50 | a fresh grid of the clamped size, holding exactly the cells of `Rebuilt` with the same test; the settings are unchanged. `Rebuild(SumTest, pick)` is the method as written, `Rebuild(DifferenceTest, pick)` the corrected one |

## Left out

- Rendering is left out: sphere and cylinder instantiation, `GridToWorld`, the `half`
  offset, prefab scale and orientation. These are Unity objects and floating-point world
  coordinates. A spawned sphere or cylinder is one emitted event.
- Pipes.PipeGenerator.SpawnSphere: the early return when no sphere prefab is set is not
  modelled. The event is recorded whether or not an object would appear.
- Pipes.PipeGenerator.SpawnCylinder: likewise, the early return when no cylinder prefab is
  set is not modelled.
- Material and colour creation in `GrowPipe` is left out: shader lookup and random float
  colours.
- Coroutines are left out (`StartCoroutine`, `yield return`, `WaitForSeconds`). They only
  pace the growth, so the walk is a plain sequential loop.
- `Random.Range` is an oracle argument whose values are only known to lie in range. No claim
  is made about the distribution.
- `maxSegmentsPerPipe` is read by `GrowPipe` but not declared among the settings. It is a
  constructor parameter of `PipeGenerator`.
- `CellSpawnerDemo.OnDrawGizmos`, `OnEnable` and `OnValidate`, `CellGridVisualizer`,
  `PipeRenderer`, `PipeManager`, `PipeMaterial` and `PipeSettings` are left out. They are
  gizmo drawing, rendering, scene wiring and a settings asset.
- Demo.CellSpawnerDemo.Rebuild: the float field `half` that the method also sets is used
  only for drawing, and is not modelled.
- Integers are unbounded. `Vector3Int` arithmetic in the source is 32-bit, but coordinates
  stay within the grid's dimensions, so no wrap-around arises.
- `SpawnGrid` has no class of its own. Its statements are those of `CellGrid3D` without
  `Clear`, so `CellGrid.CellGrid3D` models both.

## Findings

| source | as written | input that shows it | evidently intended | confidence | as-written member | corrected member |
|---|---|---|---|---|---|---|
| Assets/Script/CellSpawnerDemo.cs:39-40 | the backtrack test compares the sum `nextCell + currentCell` with `-prevDirection` | `gridSize` (5, 1, 1), `sampleLength` 2, `avoidBacktrack` true, first `Random.Range(0, 2)` returns 1. The walk goes (2,0,0) to (1,0,0), where the sum (0,0,0) + (1,0,0) equals -(-1,0,0), so the free cell (0,0,0) is skipped and the walk stops one step early. In general the sum test skips a cell wrongly only at the origin, reached from an axis neighbour (`Demo.TestsDisagree`) | the displacement `nextCell - currentCell`, as in `PipeGenerator.cs:54`; with it the filter never removes an available cell (`Demo.RebuiltIgnoresAvoid`) | not executed | `Demo.SumTestStopsEarly` | `Demo.CellSpawnerDemo.Rebuild` |
