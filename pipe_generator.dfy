/** `PipeGenerator`: grows pipes one segment at a time in a shared `CellGrid3D` and hands each
    sphere and cylinder to the renderer, which is modelled as the list of emitted events. */
module Pipes {
  import opened Lattice
  import opened Occupancy
  import opened CellGrid
  import opened PipeWalk
  import opened PipeSession

  /** Regrouping the emitted events, stated once so that the loops need not rediscover it. */
  lemma EventsRegroup(a: seq<Event>, b: seq<Event>, c: seq<Event>)
    ensures (a + b) + c == a + (b + c)
  {
  }

  class PipeGenerator {
    const maxPipes: int
    const maxSegmentsPerPipe: int
    const grid: CellGrid3D
    /** Every sphere and cylinder spawned so far, in order. */
    var Emitted: seq<Event>

    /** `Initialize`: keeps the settings and the shared grid; nothing is spawned yet. */
    constructor (maxPipes: int, maxSegmentsPerPipe: int, grid: CellGrid3D)
      ensures this.maxPipes == maxPipes && this.maxSegmentsPerPipe == maxSegmentsPerPipe
      ensures this.grid == grid && Emitted == []
    {
      this.maxPipes := maxPipes;
      this.maxSegmentsPerPipe := maxSegmentsPerPipe;
      this.grid := grid;
      Emitted := [];
    }

    method SpawnSphere(cell: Vec3)
      modifies this
      ensures Emitted == old(Emitted) + [Joint(cell)]
    {
      Emitted := Emitted + [Joint(cell)];
    }

    method SpawnCylinder(fromCell: Vec3, direction: Vec3)
      modifies this
      ensures Emitted == old(Emitted) + [Segment(fromCell, direction)]
    {
      Emitted := Emitted + [Segment(fromCell, direction)];
    }

    /** Grows one pipe from `startCell`: it emits exactly the events of `Grow` and reserves
        exactly the cells `Grow` reserves. `pick(k, n)` is the value of `Random.Range(0, n)`
        at segment `k`. */
    method GrowPipe(startCell: Vec3, pick: Oracle)
      requires grid.Valid() && ValidOracle(pick)
      modifies this, grid, grid.occupied
      ensures grid.Valid()
      ensures Emitted == old(Emitted) + Grow(grid.Size, old(grid.Occ), startCell, maxSegmentsPerPipe, pick).events
      ensures grid.Occ == Grow(grid.Size, old(grid.Occ), startCell, maxSegmentsPerPipe, pick).occ
    {
      ghost var size := grid.Size;
      ghost var g := Grow(size, grid.Occ, startCell, maxSegmentsPerPipe, pick);
      ghost var emitted0 := Emitted;
      var currentCell := startCell;
      GrowStart(size, grid.Occ, startCell, maxSegmentsPerPipe, pick, OccupyIn(size, grid.Occ, startCell));
      grid.Occupy(currentCell);
      SpawnSphere(currentCell);
      EventsRegroup(emitted0, [Joint(startCell)], Walk(size, grid.Occ, startCell, Zero, 0, maxSegmentsPerPipe, pick).events);
      var segments := 0;
      var prevDirection := Zero;
      while segments < maxSegmentsPerPipe
        invariant grid.Valid()
        invariant Emitted + Walk(size, grid.Occ, currentCell, prevDirection, segments, maxSegmentsPerPipe, pick).events ==
          emitted0 + g.events
        invariant Walk(size, grid.Occ, currentCell, prevDirection, segments, maxSegmentsPerPipe, pick).occ == g.occ
        decreases maxSegmentsPerPipe - segments
      {
        ghost var occ := grid.Occ;
        ghost var emitted := Emitted;
        var neighbouringCell := grid.AvailableNeighbouringCell(currentCell);
        neighbouringCell := WithoutBacktrack(neighbouringCell, currentCell, prevDirection);
        if |neighbouringCell| == 0 {
          WalkStopsHere(size, occ, currentCell, prevDirection, segments, maxSegmentsPerPipe, pick);
          SpawnSphere(currentCell);
          return;
        }
        var nextCell := neighbouringCell[pick(segments, |neighbouringCell|)];
        var direction := nextCell.Sub(currentCell);
        WalkAdvances(size, occ, currentCell, prevDirection, segments, maxSegmentsPerPipe, pick, nextCell);
        SpawnCylinder(currentCell, direction);
        grid.Occupy(nextCell);
        EventsRegroup(emitted, [Segment(currentCell, direction)],
          Walk(size, grid.Occ, nextCell, direction, segments + 1, maxSegmentsPerPipe, pick).events);
        currentCell := nextCell;
        prevDirection := direction;
        segments := segments + 1;
      }
      WalkStopsHere(size, grid.Occ, currentCell, prevDirection, segments, maxSegmentsPerPipe, pick);
      SpawnSphere(currentCell);
    }

    /** Grows up to `maxPipes` pipes, each from the first free cell, and stops early once the
        grid is full: everything emitted and reserved is what `Session` describes. */
    method RunPipes(picks: PipeOracles)
      requires grid.Valid() && ValidOracles(picks)
      modifies this, grid, grid.occupied
      ensures grid.Valid()
      ensures Emitted == old(Emitted) +
        AllEvents(Session(grid.Size, old(grid.Occ), 0, maxPipes, maxSegmentsPerPipe, picks).pipes)
      ensures grid.Occ == Session(grid.Size, old(grid.Occ), 0, maxPipes, maxSegmentsPerPipe, picks).occ
    {
      ghost var r := Session(grid.Size, grid.Occ, 0, maxPipes, maxSegmentsPerPipe, picks);
      ghost var emitted0 := Emitted;
      var i := 0;
      while i < maxPipes
        invariant grid.Valid()
        invariant Emitted + AllEvents(Session(grid.Size, grid.Occ, i, maxPipes, maxSegmentsPerPipe, picks).pipes) ==
          emitted0 + AllEvents(r.pipes)
        invariant Session(grid.Size, grid.Occ, i, maxPipes, maxSegmentsPerPipe, picks).occ == r.occ
        decreases maxPipes - i
      {
        var found, startCell := grid.PickFirstFree();
        if !found {
          SessionOnFullGrid(grid.Size, grid.Occ, i, maxPipes, maxSegmentsPerPipe, picks);
          return;
        }
        SessionStep(grid.Size, grid.Occ, i, maxPipes, maxSegmentsPerPipe, picks, startCell);
        ghost var emitted := Emitted;
        ghost var g := Grow(grid.Size, grid.Occ, startCell, maxSegmentsPerPipe, PipeOracle(picks, i));
        GrowPipe(startCell, PipeOracle(picks, i));
        EventsRegroup(emitted, g.events,
          AllEvents(Session(grid.Size, grid.Occ, i + 1, maxPipes, maxSegmentsPerPipe, picks).pipes));
        i := i + 1;
      }
    }
  }
}
