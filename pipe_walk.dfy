/** The walk `PipeGenerator` grows a pipe with, as a value: the events a pipe hands to the
    renderer and the cells it reserves, given the values `Random.Range` returns. */
module PipeWalk {
  import opened Lattice
  import opened Occupancy

  /** What the generator renders: a sphere at a cell, or a cylinder from a cell one step
      along a direction. */
  datatype Event = Joint(cell: Vec3) | Segment(from: Vec3, dir: Vec3)

  /** The random draws: `pick(k, n)` is what `Random.Range(0, n)` returns at step `k`. */
  type Oracle = (nat, nat) -> nat

  ghost predicate ValidOracle(pick: Oracle)
  {
    forall k: nat, n: nat :: 0 < n ==> pick(k, n) < n
  }

  /** `RemoveAll(n => n - cur == -prev)`: drops the cell the pipe has just come from. */
  function WithoutBacktrack(ns: seq<Vec3>, cur: Vec3, prev: Vec3): seq<Vec3>
  {
    if ns == [] then []
    else (if ns[0].Sub(cur) == prev.Neg() then [] else [ns[0]]) + WithoutBacktrack(ns[1..], cur, prev)
  }

  /** Exactly the cells whose displacement is not the reversed previous direction are kept. */
  lemma {:induction false} WithoutBacktrackMembers(ns: seq<Vec3>, cur: Vec3, prev: Vec3)
    ensures forall n :: n in WithoutBacktrack(ns, cur, prev) <==> n in ns && n.Sub(cur) != prev.Neg()
    ensures |WithoutBacktrack(ns, cur, prev)| <= |ns|
  {
    if ns != [] {
      WithoutBacktrackMembers(ns[1..], cur, prev);
      assert ns == [ns[0]] + ns[1..];
    }
  }

  /** When no cell matches, nothing is removed and the order is kept. */
  lemma {:induction false} WithoutBacktrackKeepsAll(ns: seq<Vec3>, cur: Vec3, prev: Vec3)
    requires forall i :: 0 <= i < |ns| ==> ns[i].Sub(cur) != prev.Neg()
    ensures WithoutBacktrack(ns, cur, prev) == ns
  {
    if ns != [] {
      WithoutBacktrackKeepsAll(ns[1..], cur, prev);
      assert ns == [ns[0]] + ns[1..];
    }
  }

  /** The list a step chooses from: the available neighbours without the backtrack cell. */
  function Candidates(size: Vec3, occ: set<Vec3>, cur: Vec3, prev: Vec3): seq<Vec3>
  {
    WithoutBacktrack(FreeNeighbours(size, occ, cur), cur, prev)
  }

  /** Every candidate is a free cell one unit axis step away. */
  lemma CandidatesAreFreeSteps(size: Vec3, occ: set<Vec3>, cur: Vec3, prev: Vec3)
    ensures forall n :: n in Candidates(size, occ, cur, prev) ==>
      Free(size, occ, n) && IsUnitAxis(n.Sub(cur)) && n.Sub(cur) != prev.Neg()
  {
    WithoutBacktrackMembers(FreeNeighbours(size, occ, cur), cur, prev);
    FreeNeighboursFacts(size, occ, cur);
  }

  /** One pipe: the events it emits, the cells it passes through in order, and the
      reserved cells once it is done. */
  datatype Pipe = Pipe(events: seq<Event>, path: seq<Vec3>, occ: set<Vec3>)

  /** The walk stops here: the segment limit is reached or there is no candidate. */
  predicate Stops(size: Vec3, occ: set<Vec3>, cur: Vec3, prev: Vec3, segments: nat, maxSegments: int)
  {
    segments >= maxSegments || |Candidates(size, occ, cur, prev)| == 0
  }

  /** The candidate the draw `pick(segments, count)` selects. */
  function NextCell(size: Vec3, occ: set<Vec3>, cur: Vec3, prev: Vec3, segments: nat, pick: Oracle): Vec3
    requires ValidOracle(pick)
    requires |Candidates(size, occ, cur, prev)| > 0
  {
    var cands := Candidates(size, occ, cur, prev);
    cands[pick(segments, |cands|)]
  }

  /** The `while` loop of `GrowPipe` from the state (`occ`, `cur`, `prev`, `segments`):
      stop with a sphere at the segment limit or at a dead end, otherwise draw a candidate,
      emit a cylinder towards it, reserve it and go on from it. */
  function Walk(size: Vec3, occ: set<Vec3>, cur: Vec3, prev: Vec3, segments: nat, maxSegments: int,
                pick: Oracle): Pipe
    requires ValidOracle(pick)
    decreases maxSegments - segments
  {
    if Stops(size, occ, cur, prev, segments, maxSegments) then Pipe([Joint(cur)], [cur], occ)
    else
      var next := NextCell(size, occ, cur, prev, segments, pick);
      var rest := Walk(size, OccupyIn(size, occ, next), next, next.Sub(cur), segments + 1, maxSegments, pick);
      Pipe([Segment(cur, next.Sub(cur))] + rest.events, [cur] + rest.path, rest.occ)
  }

  /** The step the walk takes from a state where it does not stop. */
  function Rest(size: Vec3, occ: set<Vec3>, cur: Vec3, prev: Vec3, segments: nat, maxSegments: int,
                pick: Oracle): Pipe
    requires ValidOracle(pick)
    requires !Stops(size, occ, cur, prev, segments, maxSegments)
  {
    var next := NextCell(size, occ, cur, prev, segments, pick);
    Walk(size, OccupyIn(size, occ, next), next, next.Sub(cur), segments + 1, maxSegments, pick)
  }

  /** The chosen cell is a free unit axis step away, and not the one the pipe came from. */
  lemma NextCellIsFreeStep(size: Vec3, occ: set<Vec3>, cur: Vec3, prev: Vec3, segments: nat, pick: Oracle)
    requires ValidOracle(pick)
    requires |Candidates(size, occ, cur, prev)| > 0
    ensures var next := NextCell(size, occ, cur, prev, segments, pick);
      Free(size, occ, next) && IsUnitAxis(next.Sub(cur)) && next.Sub(cur) != prev.Neg()
  {
    CandidatesAreFreeSteps(size, occ, cur, prev);
  }

  /** `GrowPipe(start)`: reserve the start cell, emit its sphere, then walk with no previous
      direction and no segments yet. */
  function Grow(size: Vec3, occ: set<Vec3>, start: Vec3, maxSegments: int, pick: Oracle): Pipe
    requires ValidOracle(pick)
  {
    var w := Walk(size, OccupyIn(size, occ, start), start, Zero, 0, maxSegments, pick);
    Pipe([Joint(start)] + w.events, w.path, w.occ)
  }

  /** The events a path implies: a cylinder for each step, then a sphere at its last cell. */
  function Trace(path: seq<Vec3>): seq<Event>
    requires |path| >= 1
    decreases |path|
  {
    if |path| == 1 then [Joint(path[0])]
    else [Segment(path[0], path[1].Sub(path[0]))] + Trace(path[1..])
  }

  /** The number of spheres among the events. */
  function JointCount(events: seq<Event>): nat
  {
    if events == [] then 0 else (if events[0].Joint? then 1 else 0) + JointCount(events[1..])
  }

  lemma {:induction false} JointCountAppend(a: seq<Event>, b: seq<Event>)
    ensures JointCount(a + b) == JointCount(a) + JointCount(b)
  {
    if a == [] {
      assert a + b == b;
    } else {
      assert (a + b)[1..] == a[1..] + b;
      JointCountAppend(a[1..], b);
    }
  }

  /** A trace has one event per cell: a cylinder from each cell to the next, and exactly one
      sphere, at the end. */
  lemma {:induction false} TraceFacts(path: seq<Vec3>)
    requires |path| >= 1
    ensures |Trace(path)| == |path|
    ensures Trace(path)[|path| - 1] == Joint(path[|path| - 1])
    ensures forall i :: 0 <= i < |path| - 1 ==> Trace(path)[i] == Segment(path[i], path[i + 1].Sub(path[i]))
    ensures JointCount(Trace(path)) == 1
    decreases |path|
  {
    if |path| > 1 {
      var t := Trace(path);
      var tail := path[1..];
      TraceFacts(tail);
      assert t == [Segment(path[0], path[1].Sub(path[0]))] + Trace(tail);
      forall i | 0 <= i < |path| - 1
        ensures t[i] == Segment(path[i], path[i + 1].Sub(path[i]))
      {
        if i > 0 {
          assert t[i] == Trace(tail)[i - 1];
          assert tail[i - 1] == path[i] && tail[i] == path[i + 1];
        }
      }
      assert t[1..] == Trace(tail);
    }
  }

  /** Each consecutive pair of cells is one unit axis step apart. */
  predicate UnitSteps(path: seq<Vec3>)
  {
    forall i :: 0 <= i < |path| - 1 ==> IsUnitAxis(path[i + 1].Sub(path[i]))
  }

  /** A walk starts at `cur`, emits exactly the trace of its path, moves one axis step at a
      time, and takes no more steps than the segments left. */
  lemma {:induction false} WalkShape(size: Vec3, occ: set<Vec3>, cur: Vec3, prev: Vec3, segments: nat,
                                     maxSegments: int, pick: Oracle)
    requires ValidOracle(pick)
    ensures var p := Walk(size, occ, cur, prev, segments, maxSegments, pick);
      |p.path| >= 1 && p.path[0] == cur && p.events == Trace(p.path) && UnitSteps(p.path) &&
      |p.path| - 1 <= Max0(maxSegments - segments)
    decreases maxSegments - segments, 1
  {
    if !Stops(size, occ, cur, prev, segments, maxSegments) {
      WalkShapeStep(size, occ, cur, prev, segments, maxSegments, pick);
    }
  }

  lemma {:induction false} WalkShapeStep(size: Vec3, occ: set<Vec3>, cur: Vec3, prev: Vec3, segments: nat,
                                         maxSegments: int, pick: Oracle)
    requires ValidOracle(pick)
    requires !Stops(size, occ, cur, prev, segments, maxSegments)
    ensures var p := Walk(size, occ, cur, prev, segments, maxSegments, pick);
      |p.path| >= 1 && p.path[0] == cur && p.events == Trace(p.path) && UnitSteps(p.path) &&
      |p.path| - 1 <= Max0(maxSegments - segments)
    decreases maxSegments - segments, 0
  {
    var next := NextCell(size, occ, cur, prev, segments, pick);
    NextCellIsFreeStep(size, occ, cur, prev, segments, pick);
    WalkShape(size, OccupyIn(size, occ, next), next, next.Sub(cur), segments + 1, maxSegments, pick);
    var rest := Rest(size, occ, cur, prev, segments, maxSegments, pick);
    var path := [cur] + rest.path;
    assert path[1..] == rest.path;
    forall i | 0 <= i < |path| - 1
      ensures IsUnitAxis(path[i + 1].Sub(path[i]))
    {
      if i > 0 {
        assert path[i] == rest.path[i - 1] && path[i + 1] == rest.path[i];
      }
    }
  }

  /** A walk enters only cells that were free, each at most once. */
  lemma {:induction false} WalkEntersFreeCells(size: Vec3, occ: set<Vec3>, cur: Vec3, prev: Vec3,
                                               segments: nat, maxSegments: int, pick: Oracle)
    requires ValidOracle(pick)
    ensures var p := Walk(size, occ, cur, prev, segments, maxSegments, pick);
      |p.path| >= 1 && Distinct(p.path[1..]) &&
      (forall i :: 1 <= i < |p.path| ==> Free(size, occ, p.path[i]))
    decreases maxSegments - segments, 1
  {
    if !Stops(size, occ, cur, prev, segments, maxSegments) {
      WalkEntersFreeCellsStep(size, occ, cur, prev, segments, maxSegments, pick);
    }
  }

  lemma {:induction false} WalkEntersFreeCellsStep(size: Vec3, occ: set<Vec3>, cur: Vec3, prev: Vec3,
                                                   segments: nat, maxSegments: int, pick: Oracle)
    requires ValidOracle(pick)
    requires !Stops(size, occ, cur, prev, segments, maxSegments)
    ensures var p := Walk(size, occ, cur, prev, segments, maxSegments, pick);
      |p.path| >= 1 && Distinct(p.path[1..]) &&
      (forall i :: 1 <= i < |p.path| ==> Free(size, occ, p.path[i]))
    decreases maxSegments - segments, 0
  {
    var next := NextCell(size, occ, cur, prev, segments, pick);
    NextCellIsFreeStep(size, occ, cur, prev, segments, pick);
    var occ' := OccupyIn(size, occ, next);
    OccupyFacts(size, occ, next);
    WalkShape(size, occ', next, next.Sub(cur), segments + 1, maxSegments, pick);
    WalkEntersFreeCells(size, occ', next, next.Sub(cur), segments + 1, maxSegments, pick);
    var rest := Rest(size, occ, cur, prev, segments, maxSegments, pick);
    var p := Walk(size, occ, cur, prev, segments, maxSegments, pick);
    assert p.path[1..] == rest.path;
    forall i | 1 <= i < |p.path|
      ensures Free(size, occ, p.path[i])
    {
      assert p.path[i] == rest.path[i - 1];
    }
    forall i, j | 0 <= i < j < |rest.path|
      ensures rest.path[i] != rest.path[j]
    {
      if i == 0 {
        assert !Free(size, occ', next);
      } else {
        assert rest.path[1..][i - 1] == rest.path[i] && rest.path[1..][j - 1] == rest.path[j];
      }
    }
  }

  /** A walk reserves exactly the cells it enters. */
  lemma {:induction false} WalkReserves(size: Vec3, occ: set<Vec3>, cur: Vec3, prev: Vec3,
                                        segments: nat, maxSegments: int, pick: Oracle)
    requires ValidOracle(pick)
    ensures var p := Walk(size, occ, cur, prev, segments, maxSegments, pick);
      |p.path| >= 1 && p.occ == occ + CellSet(p.path[1..])
    decreases maxSegments - segments, 1
  {
    if !Stops(size, occ, cur, prev, segments, maxSegments) {
      WalkReservesStep(size, occ, cur, prev, segments, maxSegments, pick);
    } else {
      assert Walk(size, occ, cur, prev, segments, maxSegments, pick).path[1..] == [];
    }
  }

  lemma {:induction false} WalkReservesStep(size: Vec3, occ: set<Vec3>, cur: Vec3, prev: Vec3,
                                            segments: nat, maxSegments: int, pick: Oracle)
    requires ValidOracle(pick)
    requires !Stops(size, occ, cur, prev, segments, maxSegments)
    ensures var p := Walk(size, occ, cur, prev, segments, maxSegments, pick);
      |p.path| >= 1 && p.occ == occ + CellSet(p.path[1..])
    decreases maxSegments - segments, 0
  {
    var next := NextCell(size, occ, cur, prev, segments, pick);
    NextCellIsFreeStep(size, occ, cur, prev, segments, pick);
    var occ' := OccupyIn(size, occ, next);
    assert occ' == occ + {next};
    WalkShape(size, occ', next, next.Sub(cur), segments + 1, maxSegments, pick);
    WalkReserves(size, occ', next, next.Sub(cur), segments + 1, maxSegments, pick);
    var rest := Rest(size, occ, cur, prev, segments, maxSegments, pick);
    var p := Walk(size, occ, cur, prev, segments, maxSegments, pick);
    assert p.path[1..] == rest.path;
    assert CellSet(rest.path) == {next} + CellSet(rest.path[1..]);
  }

  /** A pipe starts at its start cell with a sphere, emits one cylinder per step along a
      unit axis direction, ends with a sphere at its last cell (two spheres in all, even
      when it takes no step) and takes at most `maxSegments` steps. */
  lemma GrowEvents(size: Vec3, occ: set<Vec3>, start: Vec3, maxSegments: int, pick: Oracle)
    requires ValidOracle(pick)
    ensures var g := Grow(size, occ, start, maxSegments, pick);
      var k := |g.path| - 1;
      k >= 0 && g.path[0] == start && k <= Max0(maxSegments) &&
      |g.events| == k + 2 &&
      g.events[0] == Joint(start) && g.events[k + 1] == Joint(g.path[k]) &&
      (forall i :: 0 <= i < k ==>
        g.events[i + 1] == Segment(g.path[i], g.path[i + 1].Sub(g.path[i])) &&
        IsUnitAxis(g.path[i + 1].Sub(g.path[i]))) &&
      JointCount(g.events) == 2
  {
    var occ' := OccupyIn(size, occ, start);
    WalkShape(size, occ', start, Zero, 0, maxSegments, pick);
    var g := Grow(size, occ, start, maxSegments, pick);
    assert g.events == [Joint(start)] + Trace(g.path);
    StartedTrace(start, g.path);
  }

  /** A sphere followed by the trace of a unit-step path: two spheres, one cylinder per step. */
  lemma StartedTrace(start: Vec3, path: seq<Vec3>)
    requires |path| >= 1 && UnitSteps(path)
    ensures var e := [Joint(start)] + Trace(path);
      var k := |path| - 1;
      |e| == k + 2 && e[0] == Joint(start) && e[k + 1] == Joint(path[k]) &&
      (forall i :: 0 <= i < k ==>
        e[i + 1] == Segment(path[i], path[i + 1].Sub(path[i])) && IsUnitAxis(path[i + 1].Sub(path[i]))) &&
      JointCount(e) == 2
  {
    TraceFacts(path);
    var e := [Joint(start)] + Trace(path);
    JointCountAppend([Joint(start)], Trace(path));
    forall i | 0 <= i < |path| - 1
      ensures e[i + 1] == Segment(path[i], path[i + 1].Sub(path[i]))
    {
      assert e[i + 1] == Trace(path)[i];
    }
  }

  /** A pipe grown from a free cell never overlaps what was reserved before: its cells are
      distinct and were all free, it reserves exactly them (k segments, k + 1 cells), and the
      free cells of the grid shrink by as many. */
  lemma GrowCells(size: Vec3, occ: set<Vec3>, start: Vec3, maxSegments: int, pick: Oracle)
    requires ValidOracle(pick)
    requires Free(size, occ, start)
    ensures var g := Grow(size, occ, start, maxSegments, pick);
      |g.path| >= 1 &&
      (forall i :: 0 <= i < |g.path| ==> Free(size, occ, g.path[i])) &&
      Distinct(g.path) &&
      g.occ == occ + CellSet(g.path) &&
      |g.occ| == |occ| + |g.path| &&
      |FreeCells(size, g.occ)| == |FreeCells(size, occ)| - |g.path|
  {
    var occ' := OccupyIn(size, occ, start);
    OccupyFacts(size, occ, start);
    assert occ' == occ + {start};
    WalkShape(size, occ', start, Zero, 0, maxSegments, pick);
    WalkEntersFreeCells(size, occ', start, Zero, 0, maxSegments, pick);
    WalkReserves(size, occ', start, Zero, 0, maxSegments, pick);
    var g := Grow(size, occ, start, maxSegments, pick);
    assert g.path == [start] + g.path[1..];
    forall i | 0 <= i < |g.path|
      ensures Free(size, occ, g.path[i])
    {
      if i > 0 {
        assert g.path[i] == g.path[1..][i - 1];
      }
    }
    forall i, j | 0 <= i < j < |g.path|
      ensures g.path[i] != g.path[j]
    {
      if i == 0 {
        assert !Free(size, occ', start);
        assert g.path[j] == g.path[1..][j - 1];
      } else {
        assert g.path[1..][i - 1] == g.path[i] && g.path[1..][j - 1] == g.path[j];
      }
    }
    assert CellSet(g.path) == {start} + CellSet(g.path[1..]);
    ReserveFreeCells(size, occ, g.path);
  }

  /** The same walk with no backtrack filter at all: every available neighbour is a
      candidate. */
  function PlainWalk(size: Vec3, occ: set<Vec3>, cur: Vec3, segments: nat, maxSegments: int,
                     pick: Oracle): Pipe
    requires ValidOracle(pick)
    decreases maxSegments - segments
  {
    var cands := FreeNeighbours(size, occ, cur);
    if segments >= maxSegments || |cands| == 0 then Pipe([Joint(cur)], [cur], occ)
    else
      var next := cands[pick(segments, |cands|)];
      var rest := PlainWalk(size, OccupyIn(size, occ, next), next, segments + 1, maxSegments, pick);
      Pipe([Segment(cur, next.Sub(cur))] + rest.events, [cur] + rest.path, rest.occ)
  }

  /** The pipe cannot turn back: its current cell is taken and so is the cell it came from
      (if any). */
  predicate BacktrackBlocked(size: Vec3, occ: set<Vec3>, cur: Vec3, prev: Vec3)
  {
    !Free(size, occ, cur) && (prev == Zero || !Free(size, occ, cur.Sub(prev)))
  }

  /** With no previous direction the filter only matches `cur` itself. */
  lemma NoDirectionMatchesOnlyCur(m: Vec3, cur: Vec3, prev: Vec3)
    requires prev == Zero && m != cur
    ensures m.Sub(cur) != prev.Neg()
  {
    assert prev.Neg() == Vec3(0, 0, 0);
    assert m == Vec3(m.x, m.y, m.z) && cur == Vec3(cur.x, cur.y, cur.z);
  }

  /** Otherwise the filter matches only `cur - prev`. */
  lemma DirectionMatchesOnlyPredecessor(size: Vec3, occ: set<Vec3>, cur: Vec3, prev: Vec3, m: Vec3)
    requires !Free(size, occ, cur.Sub(prev)) && Free(size, occ, m)
    ensures m.Sub(cur) != prev.Neg()
  {
  }

  /** With no previous direction, or with the previous cell taken, the backtrack filter
      removes nothing. */
  lemma BacktrackFilterInert(size: Vec3, occ: set<Vec3>, cur: Vec3, prev: Vec3)
    requires prev == Zero || !Free(size, occ, cur.Sub(prev))
    ensures Candidates(size, occ, cur, prev) == FreeNeighbours(size, occ, cur)
  {
    var ns := FreeNeighbours(size, occ, cur);
    FreeNeighboursFacts(size, occ, cur);
    forall i | 0 <= i < |ns|
      ensures ns[i].Sub(cur) != prev.Neg()
    {
      assert ns[i] in ns;
      if prev == Zero {
        NoDirectionMatchesOnlyCur(ns[i], cur, prev);
      } else {
        DirectionMatchesOnlyPredecessor(size, occ, cur, prev, ns[i]);
      }
    }
    WithoutBacktrackKeepsAll(ns, cur, prev);
  }

  /** Stepping from `cur` to `next` and then back along the same direction returns to `cur`. */
  lemma StepBack(cur: Vec3, next: Vec3)
    ensures next.Sub(next.Sub(cur)) == cur
  {
  }

  /** Having stepped to a free neighbour, the pipe cannot turn back there either. */
  lemma BlockedAfterStep(size: Vec3, occ: set<Vec3>, cur: Vec3, next: Vec3)
    requires !Free(size, occ, cur)
    requires next in FreeNeighbours(size, occ, cur)
    ensures BacktrackBlocked(size, OccupyIn(size, occ, next), next, next.Sub(cur))
  {
    FreeNeighboursFacts(size, occ, cur);
    OccupyFacts(size, occ, next);
    StepBack(cur, next);
  }

  /** When the walks stop here, they agree. */
  lemma WalkPlainStop(size: Vec3, occ: set<Vec3>, cur: Vec3, prev: Vec3,
                      segments: nat, maxSegments: int, pick: Oracle)
    requires ValidOracle(pick)
    requires Candidates(size, occ, cur, prev) == FreeNeighbours(size, occ, cur)
    requires segments >= maxSegments || |FreeNeighbours(size, occ, cur)| == 0
    ensures Walk(size, occ, cur, prev, segments, maxSegments, pick) ==
            PlainWalk(size, occ, cur, segments, maxSegments, pick)
  {
  }

  /** One step of the two walks agrees when the filter is inert here and the rest of the
      walks agree. */
  lemma WalkPlainStep(size: Vec3, occ: set<Vec3>, cur: Vec3, prev: Vec3,
                      segments: nat, maxSegments: int, pick: Oracle)
    requires ValidOracle(pick)
    requires Candidates(size, occ, cur, prev) == FreeNeighbours(size, occ, cur)
    requires segments < maxSegments && |FreeNeighbours(size, occ, cur)| > 0
    requires var cands := FreeNeighbours(size, occ, cur);
      var next := cands[pick(segments, |cands|)];
      Walk(size, OccupyIn(size, occ, next), next, next.Sub(cur), segments + 1, maxSegments, pick) ==
      PlainWalk(size, OccupyIn(size, occ, next), next, segments + 1, maxSegments, pick)
    ensures Walk(size, occ, cur, prev, segments, maxSegments, pick) ==
            PlainWalk(size, occ, cur, segments, maxSegments, pick)
  {
  }

  /** Once the pipe cannot turn back, it never can: the filter never changes a walk. */
  lemma {:induction false} WalkIgnoresBacktrackFilter(size: Vec3, occ: set<Vec3>, cur: Vec3, prev: Vec3,
                                                      segments: nat, maxSegments: int, pick: Oracle)
    requires ValidOracle(pick)
    requires BacktrackBlocked(size, occ, cur, prev)
    ensures Walk(size, occ, cur, prev, segments, maxSegments, pick) ==
            PlainWalk(size, occ, cur, segments, maxSegments, pick)
    decreases maxSegments - segments, 1
  {
    if segments >= maxSegments || |FreeNeighbours(size, occ, cur)| == 0 {
      BacktrackFilterInert(size, occ, cur, prev);
      WalkPlainStop(size, occ, cur, prev, segments, maxSegments, pick);
    } else {
      BacktrackFilterInert(size, occ, cur, prev);
      WalkIgnoresBacktrackFilterStep(size, occ, cur, prev, segments, maxSegments, pick);
    }
  }

  /** The inductive step of `WalkIgnoresBacktrackFilter`. */
  lemma {:induction false} WalkIgnoresBacktrackFilterStep(size: Vec3, occ: set<Vec3>, cur: Vec3, prev: Vec3,
                                                          segments: nat, maxSegments: int, pick: Oracle)
    requires ValidOracle(pick)
    requires BacktrackBlocked(size, occ, cur, prev)
    requires Candidates(size, occ, cur, prev) == FreeNeighbours(size, occ, cur)
    requires segments < maxSegments && |FreeNeighbours(size, occ, cur)| > 0
    ensures Walk(size, occ, cur, prev, segments, maxSegments, pick) ==
            PlainWalk(size, occ, cur, segments, maxSegments, pick)
    decreases maxSegments - segments, 0
  {
    var cands := FreeNeighbours(size, occ, cur);
    var next := cands[pick(segments, |cands|)];
    BlockedAfterStep(size, occ, cur, next);
    WalkIgnoresBacktrackFilter(size, OccupyIn(size, occ, next), next, next.Sub(cur),
                               segments + 1, maxSegments, pick);
    WalkPlainStep(size, occ, cur, prev, segments, maxSegments, pick);
  }

  /** `GrowPipe` behaves as if it had no backtrack filter. */
  lemma GrowIgnoresBacktrackFilter(size: Vec3, occ: set<Vec3>, start: Vec3, maxSegments: int, pick: Oracle)
    requires ValidOracle(pick)
    ensures var w := PlainWalk(size, OccupyIn(size, occ, start), start, 0, maxSegments, pick);
      Grow(size, occ, start, maxSegments, pick) == Pipe([Joint(start)] + w.events, w.path, w.occ)
  {
    OccupyFacts(size, occ, start);
    WalkIgnoresBacktrackFilter(size, OccupyIn(size, occ, start), start, Zero, 0, maxSegments, pick);
  }

  /** A walk that stops emits one sphere where it stands and reserves nothing more. */
  lemma WalkStopsHere(size: Vec3, occ: set<Vec3>, cur: Vec3, prev: Vec3, segments: nat, maxSegments: int,
                      pick: Oracle)
    requires ValidOracle(pick)
    requires Stops(size, occ, cur, prev, segments, maxSegments)
    ensures Walk(size, occ, cur, prev, segments, maxSegments, pick).events == [Joint(cur)]
    ensures Walk(size, occ, cur, prev, segments, maxSegments, pick).occ == occ
  {
  }

  /** A walk that goes on takes the drawn candidate `next`: a cylinder towards it, then the
      walk from `next` with `next` reserved, which ends with the same reservations. */
  lemma WalkAdvances(size: Vec3, occ: set<Vec3>, cur: Vec3, prev: Vec3, segments: nat, maxSegments: int,
                     pick: Oracle, next: Vec3)
    requires ValidOracle(pick)
    requires !Stops(size, occ, cur, prev, segments, maxSegments)
    requires next == NextCell(size, occ, cur, prev, segments, pick)
    ensures var w := Walk(size, occ, cur, prev, segments, maxSegments, pick);
      var rest := Walk(size, OccupyIn(size, occ, next), next, next.Sub(cur), segments + 1, maxSegments, pick);
      w.events == [Segment(cur, next.Sub(cur))] + rest.events && w.occ == rest.occ
  {
  }

  /** A walk with a single candidate takes it: a cylinder along `dir` to `next`, then the
      walk from `next` with `next` reserved as `occ'`. */
  lemma WalkForced(size: Vec3, occ: set<Vec3>, cur: Vec3, prev: Vec3, segments: nat, maxSegments: int,
                   pick: Oracle, next: Vec3, dir: Vec3, occ': set<Vec3>)
    requires ValidOracle(pick)
    requires segments < maxSegments && Candidates(size, occ, cur, prev) == [next]
    requires next.Sub(cur) == dir && OccupyIn(size, occ, next) == occ'
    ensures Walk(size, occ, cur, prev, segments, maxSegments, pick).events ==
      [Segment(cur, dir)] + Walk(size, occ', next, dir, segments + 1, maxSegments, pick).events
  {
    assert pick(segments, 1) == 0;
  }

  /** Reserving a cell inside the grid adds it to the reserved set. */
  lemma OccupyInside(size: Vec3, occ: set<Vec3>, c: Vec3)
    requires InBox(c, size)
    ensures OccupyIn(size, occ, c) == occ + {c}
    ensures occ == {} ==> OccupyIn(size, occ, c) == {c}
  {
  }

  /** In a single-cell grid with its cell taken, that cell has no free neighbour. */
  lemma SingleCellNeighbours(size: Vec3, a: Vec3)
    requires size.x == 1 && size.y == 1 && size.z == 1 && a == Zero
    ensures FreeNeighbours(size, {a}, a) == []
  {
    FreeNeighboursInOrder(size, {a}, a);
  }

  /** A pipe starts with a sphere at its start cell, then walks with that cell reserved as `occ'`. */
  lemma GrowStart(size: Vec3, occ: set<Vec3>, start: Vec3, maxSegments: int, pick: Oracle, occ': set<Vec3>)
    requires ValidOracle(pick) && OccupyIn(size, occ, start) == occ'
    ensures Grow(size, occ, start, maxSegments, pick).events ==
      [Joint(start)] + Walk(size, occ', start, Zero, 0, maxSegments, pick).events
  {
  }

  /** A pipe whose walk from the reserved start emits `rest` emits the start's sphere and
      then `rest`. */
  lemma GrowFromWalk(size: Vec3, occ: set<Vec3>, start: Vec3, maxSegments: int, pick: Oracle,
                     occ': set<Vec3>, rest: seq<Event>)
    requires ValidOracle(pick) && OccupyIn(size, occ, start) == occ'
    requires Walk(size, occ', start, Zero, 0, maxSegments, pick).events == rest
    ensures Grow(size, occ, start, maxSegments, pick).events == [Joint(start)] + rest
  {
    GrowStart(size, occ, start, maxSegments, pick, occ');
  }

  /** On a single-cell grid a pipe still emits two spheres at that cell and nothing else. */
  lemma SingleCellExample(size: Vec3, maxSegments: int, pick: Oracle)
    requires ValidOracle(pick)
    requires size.x == 1 && size.y == 1 && size.z == 1
    ensures Grow(size, {}, Zero, maxSegments, pick).events == [Joint(Zero), Joint(Zero)]
  {
    OccupyInside(size, {}, Zero);
    SingleCellNeighbours(size, Zero);
    WalkStopsHere(size, {Zero}, Zero, Zero, 0, maxSegments, pick);
  }
}
