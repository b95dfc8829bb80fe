/** `RunPipes` as a value: up to `maxPipes` pipes, each started at the first free cell in scan
    order, until the grid is full. */
module PipeSession {
  import opened Lattice
  import opened Occupancy
  import opened PipeWalk

  /** The random draws of a whole run: `picks(p, k, n)` is what `Random.Range(0, n)` returns
      at step `k` of pipe `p`. */
  type PipeOracles = (nat, nat, nat) -> nat

  ghost predicate ValidOracles(picks: PipeOracles)
  {
    forall p: nat, k: nat, n: nat :: 0 < n ==> picks(p, k, n) < n
  }

  /** The draws of pipe `p`. */
  function PipeOracle(picks: PipeOracles, p: nat): (pick: Oracle)
    requires ValidOracles(picks)
    ensures ValidOracle(pick)
  {
    (k: nat, n: nat) => picks(p, k, n)
  }

  /** The pipes of a run and the reserved cells after it. */
  datatype Run = Run(pipes: seq<Pipe>, occ: set<Vec3>)

  /** Pipes `i`, `i + 1`, ... of a run that has `occ` reserved when pipe `i` is due. */
  function Session(size: Vec3, occ: set<Vec3>, i: nat, maxPipes: int, maxSegments: int,
                   picks: PipeOracles): Run
    requires size.x >= 0 && size.y >= 0 && size.z >= 0
    requires ValidOracles(picks)
    decreases maxPipes - i
  {
    if i >= maxPipes then Run([], occ)
    else match FirstFree(size, occ)
      case None => Run([], occ)
      case Some(start) =>
        var g := Grow(size, occ, start, maxSegments, PipeOracle(picks, i));
        var rest := Session(size, g.occ, i + 1, maxPipes, maxSegments, picks);
        Run([g] + rest.pipes, rest.occ)
  }

  /** All cells of the pipes, pipe after pipe. */
  function AllPaths(pipes: seq<Pipe>): seq<Vec3>
  {
    if pipes == [] then [] else pipes[0].path + AllPaths(pipes[1..])
  }

  /** Everything rendered, pipe after pipe. */
  function AllEvents(pipes: seq<Pipe>): seq<Event>
  {
    if pipes == [] then [] else pipes[0].events + AllEvents(pipes[1..])
  }

  lemma {:induction false} AllEventsAppend(a: seq<Pipe>, b: seq<Pipe>)
    ensures AllEvents(a + b) == AllEvents(a) + AllEvents(b)
  {
    if a == [] {
      assert a + b == b;
    } else {
      assert (a + b)[1..] == a[1..] + b;
      AllEventsAppend(a[1..], b);
    }
  }

  lemma {:induction false} CellSetAppend(a: seq<Vec3>, b: seq<Vec3>)
    ensures CellSet(a + b) == CellSet(a) + CellSet(b)
  {
    CellSetMembers(a);
    CellSetMembers(b);
    CellSetMembers(a + b);
  }

  /** Two sequences without repetitions and without a common cell concatenate to one. */
  lemma DistinctAppend(a: seq<Vec3>, b: seq<Vec3>)
    requires Distinct(a) && Distinct(b)
    requires forall i, j :: 0 <= i < |a| && 0 <= j < |b| ==> a[i] != b[j]
    ensures Distinct(a + b)
  {
    var s := a + b;
    forall i, j | 0 <= i < j < |s| ensures s[i] != s[j] {
      if j < |a| {
        assert s[i] == a[i] && s[j] == a[j];
      } else if i < |a| {
        assert s[i] == a[i] && s[j] == b[j - |a|];
      } else {
        assert s[i] == b[i - |a|] && s[j] == b[j - |a|];
      }
    }
  }

  /** With a slot left and a free cell, a run grows a pipe from the first free cell and goes on
      with the next slot. */
  lemma SessionStep(size: Vec3, occ: set<Vec3>, i: nat, maxPipes: int, maxSegments: int,
                    picks: PipeOracles, start: Vec3)
    requires size.x >= 0 && size.y >= 0 && size.z >= 0
    requires ValidOracles(picks)
    requires i < maxPipes && FirstFree(size, occ) == Some(start)
    ensures var r := Session(size, occ, i, maxPipes, maxSegments, picks);
      var g := Grow(size, occ, start, maxSegments, PipeOracle(picks, i));
      var rest := Session(size, g.occ, i + 1, maxPipes, maxSegments, picks);
      AllEvents(r.pipes) == g.events + AllEvents(rest.pipes) && r.occ == rest.occ
  {
    var r := Session(size, occ, i, maxPipes, maxSegments, picks);
    var g := Grow(size, occ, start, maxSegments, PipeOracle(picks, i));
    var rest := Session(size, g.occ, i + 1, maxPipes, maxSegments, picks);
    assert r.pipes == [g] + rest.pipes;
    assert r.pipes[1..] == rest.pipes;
  }

  /** On a full grid a run grows nothing. */
  lemma SessionOnFullGrid(size: Vec3, occ: set<Vec3>, i: nat, maxPipes: int, maxSegments: int,
                          picks: PipeOracles)
    requires size.x >= 0 && size.y >= 0 && size.z >= 0
    requires ValidOracles(picks)
    requires FirstFree(size, occ) == None
    ensures Session(size, occ, i, maxPipes, maxSegments, picks) == Run([], occ)
  {
  }

  /** A run grows at most one pipe per remaining pipe slot. */
  lemma {:induction false} SessionBound(size: Vec3, occ: set<Vec3>, i: nat, maxPipes: int, maxSegments: int,
                                        picks: PipeOracles)
    requires size.x >= 0 && size.y >= 0 && size.z >= 0
    requires ValidOracles(picks)
    ensures |Session(size, occ, i, maxPipes, maxSegments, picks).pipes| <= Max0(maxPipes - i)
    decreases maxPipes - i
  {
    if i < maxPipes && FirstFree(size, occ).Some? {
      var g := Grow(size, occ, FirstFree(size, occ).value, maxSegments, PipeOracle(picks, i));
      SessionBound(size, g.occ, i + 1, maxPipes, maxSegments, picks);
    }
  }

  /** A run that grows fewer pipes than it has slots for stops because the grid is full. */
  lemma {:induction false} SessionEndsFull(size: Vec3, occ: set<Vec3>, i: nat, maxPipes: int, maxSegments: int,
                                           picks: PipeOracles)
    requires size.x >= 0 && size.y >= 0 && size.z >= 0
    requires ValidOracles(picks)
    ensures var r := Session(size, occ, i, maxPipes, maxSegments, picks);
      |r.pipes| < Max0(maxPipes - i) ==> forall d :: InBox(d, size) ==> d in r.occ
    decreases maxPipes - i
  {
    if i < maxPipes {
      FirstFreeSpec(size, occ);
      if FirstFree(size, occ).Some? {
        var g := Grow(size, occ, FirstFree(size, occ).value, maxSegments, PipeOracle(picks, i));
        SessionEndsFull(size, g.occ, i + 1, maxPipes, maxSegments, picks);
      }
    }
  }

  /** Pipes never overlap: the cells of all pipes are distinct, each was free before the run,
      the run reserves exactly them, every pipe has at least one cell, and the free cells
      shrink by as many. */
  lemma {:induction false} SessionCells(size: Vec3, occ: set<Vec3>, i: nat, maxPipes: int, maxSegments: int,
                                        picks: PipeOracles)
    requires size.x >= 0 && size.y >= 0 && size.z >= 0
    requires ValidOracles(picks)
    ensures var r := Session(size, occ, i, maxPipes, maxSegments, picks);
      var cells := AllPaths(r.pipes);
      Distinct(cells) &&
      (forall j :: 0 <= j < |cells| ==> Free(size, occ, cells[j])) &&
      r.occ == occ + CellSet(cells) &&
      |cells| >= |r.pipes| &&
      |FreeCells(size, r.occ)| == |FreeCells(size, occ)| - |cells|
    decreases maxPipes - i
  {
    if i < maxPipes && FirstFree(size, occ).Some? {
      SessionCellsStep(size, occ, i, maxPipes, maxSegments, picks);
    } else {
      ReserveFreeCells(size, occ, []);
    }
  }

  lemma {:induction false} SessionCellsStep(size: Vec3, occ: set<Vec3>, i: nat, maxPipes: int, maxSegments: int,
                                            picks: PipeOracles)
    requires size.x >= 0 && size.y >= 0 && size.z >= 0
    requires ValidOracles(picks)
    requires i < maxPipes && FirstFree(size, occ).Some?
    ensures var r := Session(size, occ, i, maxPipes, maxSegments, picks);
      var cells := AllPaths(r.pipes);
      Distinct(cells) &&
      (forall j :: 0 <= j < |cells| ==> Free(size, occ, cells[j])) &&
      r.occ == occ + CellSet(cells) &&
      |cells| >= |r.pipes| &&
      |FreeCells(size, r.occ)| == |FreeCells(size, occ)| - |cells|
    decreases maxPipes - i, 0
  {
    var start := FirstFree(size, occ).value;
    FirstFreeSpec(size, occ);
    var pick := PipeOracle(picks, i);
    var g := Grow(size, occ, start, maxSegments, pick);
    GrowCells(size, occ, start, maxSegments, pick);
    SessionCells(size, g.occ, i + 1, maxPipes, maxSegments, picks);
    var rest := Session(size, g.occ, i + 1, maxPipes, maxSegments, picks);
    var r := Session(size, occ, i, maxPipes, maxSegments, picks);
    assert r.pipes == [g] + rest.pipes && r.occ == rest.occ;
    assert r.pipes[1..] == rest.pipes;
    assert AllPaths(r.pipes) == g.path + AllPaths(rest.pipes);
    JoinCells(size, occ, g.path, g.occ, AllPaths(rest.pipes), rest.occ);
  }

  /** Reserving distinct free cells `first`, then distinct cells `second` that are free after
      that, reserves the distinct free cells `first + second`. */
  lemma JoinCells(size: Vec3, occ: set<Vec3>, first: seq<Vec3>, mid: set<Vec3>, second: seq<Vec3>,
                  last: set<Vec3>)
    requires Distinct(first) && (forall j :: 0 <= j < |first| ==> Free(size, occ, first[j]))
    requires mid == occ + CellSet(first) && |FreeCells(size, mid)| == |FreeCells(size, occ)| - |first|
    requires Distinct(second) && (forall j :: 0 <= j < |second| ==> Free(size, mid, second[j]))
    requires last == mid + CellSet(second) && |FreeCells(size, last)| == |FreeCells(size, mid)| - |second|
    ensures var cells := first + second;
      Distinct(cells) && (forall j :: 0 <= j < |cells| ==> Free(size, occ, cells[j])) &&
      last == occ + CellSet(cells) && |FreeCells(size, last)| == |FreeCells(size, occ)| - |cells|
  {
    var cells := first + second;
    CellSetMembers(first);
    forall a, b | 0 <= a < |first| && 0 <= b < |second|
      ensures first[a] != second[b]
    {
      assert first[a] in mid;
    }
    DistinctAppend(first, second);
    forall j | 0 <= j < |cells|
      ensures Free(size, occ, cells[j])
    {
      if j >= |first| {
        assert cells[j] == second[j - |first|];
      }
    }
    CellSetAppend(first, second);
  }

  /** Every pipe of a run starts and ends with a sphere and has no sphere in between, so a run
      of k pipes renders exactly 2k spheres. */
  lemma {:induction false} SessionJoints(size: Vec3, occ: set<Vec3>, i: nat, maxPipes: int, maxSegments: int,
                                         picks: PipeOracles)
    requires size.x >= 0 && size.y >= 0 && size.z >= 0
    requires ValidOracles(picks)
    ensures var r := Session(size, occ, i, maxPipes, maxSegments, picks);
      JointCount(AllEvents(r.pipes)) == 2 * |r.pipes|
    decreases maxPipes - i
  {
    if i < maxPipes && FirstFree(size, occ).Some? {
      var start := FirstFree(size, occ).value;
      var pick := PipeOracle(picks, i);
      var g := Grow(size, occ, start, maxSegments, pick);
      GrowEvents(size, occ, start, maxSegments, pick);
      SessionJoints(size, g.occ, i + 1, maxPipes, maxSegments, picks);
      var rest := Session(size, g.occ, i + 1, maxPipes, maxSegments, picks);
      var r := Session(size, occ, i, maxPipes, maxSegments, picks);
      assert r.pipes[1..] == rest.pipes;
      JointCountAppend(g.events, AllEvents(rest.pipes));
    }
  }

  /** A run grows at most one pipe per cell that was free when it began. */
  lemma SessionPipesFitGrid(size: Vec3, occ: set<Vec3>, i: nat, maxPipes: int, maxSegments: int,
                            picks: PipeOracles)
    requires size.x >= 0 && size.y >= 0 && size.z >= 0
    requires ValidOracles(picks)
    ensures |Session(size, occ, i, maxPipes, maxSegments, picks).pipes| <= |FreeCells(size, occ)|
  {
    SessionCells(size, occ, i, maxPipes, maxSegments, picks);
  }
}
