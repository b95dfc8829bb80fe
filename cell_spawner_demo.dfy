/** `CellSpawnerDemo.Rebuild`: a random walk of at most `sampleLength` steps from the centre
    of a fresh grid, as a value and as the imperative loop. */
module Demo {
  import opened Lattice
  import opened Occupancy
  import opened CellGrid
  import opened PipeWalk

  /** How a neighbour is recognised as the cell the walk has just come from. `SumTest` is the
      comparison `Rebuild` makes (`nextCell + currentCell == -prevDirection`); `DifferenceTest`
      is the one `GrowPipe` makes (`nextCell - currentCell == -prevDirection`). */
  datatype BacktrackTest = SumTest | DifferenceTest

  predicate LooksBack(test: BacktrackTest, next: Vec3, cur: Vec3, prev: Vec3)
  {
    match test
    case SumTest => next.Add(cur) == prev.Neg()
    case DifferenceTest => next.Sub(cur) == prev.Neg()
  }

  /** What one pass of the `foreach` body adds to `options` for the neighbour `n`: nothing when
      it is skipped as the backtrack cell, otherwise `n` if the grid still reports it available. */
  function Admit(size: Vec3, occ: set<Vec3>, n: Vec3, cur: Vec3, prev: Vec3, avoid: bool,
                 test: BacktrackTest): seq<Vec3>
  {
    if avoid && LooksBack(test, n, cur, prev) then [] else Kept(size, occ, n)
  }

  /** `options` after the `foreach` has visited the neighbours `ns`, in order. */
  function OptionsFrom(size: Vec3, occ: set<Vec3>, ns: seq<Vec3>, cur: Vec3, prev: Vec3, avoid: bool,
                       test: BacktrackTest): seq<Vec3>
    decreases |ns|
  {
    if ns == [] then []
    else OptionsFrom(size, occ, ns[..|ns| - 1], cur, prev, avoid, test) +
         Admit(size, occ, ns[|ns| - 1], cur, prev, avoid, test)
  }

  /** `options` at the end of one iteration's `foreach`. */
  function Options(size: Vec3, occ: set<Vec3>, cur: Vec3, prev: Vec3, avoid: bool,
                   test: BacktrackTest): seq<Vec3>
  {
    OptionsFrom(size, occ, FreeNeighbours(size, occ, cur), cur, prev, avoid, test)
  }

  /** The cells one sampling run visits, in order, and the reserved cells once it is done. */
  datatype Sample = Sample(path: seq<Vec3>, occ: set<Vec3>)

  /** The `for` loop of `Rebuild` from iteration `i`: stop after `sampleLength` iterations or
      when `options` is empty, otherwise draw an option, step to it and reserve it. */
  function Sampling(size: Vec3, occ: set<Vec3>, cur: Vec3, prev: Vec3, i: nat, sampleLength: int,
                    avoid: bool, test: BacktrackTest, pick: Oracle): Sample
    requires ValidOracle(pick)
    decreases sampleLength - i
  {
    var opts := Options(size, occ, cur, prev, avoid, test);
    if i >= sampleLength || |opts| == 0 then Sample([cur], occ)
    else
      var chosen := opts[pick(i, |opts|)];
      var rest := Sampling(size, OccupyIn(size, occ, chosen), chosen, chosen.Sub(cur), i + 1,
                           sampleLength, avoid, test, pick);
      Sample([cur] + rest.path, rest.occ)
  }

  /** C#'s `n / 2` on `int`, which truncates toward zero. */
  function HalfTowardZero(n: int): (r: int)
    ensures 2 * r == n || 2 * r == n - 1 || 2 * r == n + 1
    ensures n >= 0 ==> 0 <= r <= n && 2 * r <= n
    ensures n < 0 ==> n < r <= 0 && 2 * r >= n
  {
    if n >= 0 then n / 2 else -((-n) / 2)
  }

  /** The start cell: `gridSize / 2` per axis, from the requested (unclamped) size. */
  function Centre(gridSize: Vec3): Vec3
  {
    Vec3(HalfTowardZero(gridSize.x), HalfTowardZero(gridSize.y), HalfTowardZero(gridSize.z))
  }

  /** `Rebuild`: a fresh grid of the clamped size, the centre reserved, then the sampling loop
      with no previous direction. */
  function Rebuilt(gridSize: Vec3, sampleLength: int, avoid: bool, test: BacktrackTest,
                   pick: Oracle): Sample
    requires ValidOracle(pick)
  {
    var size := ClampSize(gridSize);
    var start := Centre(gridSize);
    Sampling(size, OccupyIn(size, {}, start), start, Zero, 0, sampleLength, avoid, test, pick)
  }

  // ----- options -----

  /** An option is exactly an available neighbour that the test does not skip; there are at
      most six of them. */
  lemma {:induction false} OptionsFromMembers(size: Vec3, occ: set<Vec3>, ns: seq<Vec3>, cur: Vec3,
                                              prev: Vec3, avoid: bool, test: BacktrackTest)
    ensures var o := OptionsFrom(size, occ, ns, cur, prev, avoid, test);
      |o| <= |ns| &&
      forall n :: n in o <==> n in ns && Free(size, occ, n) && !(avoid && LooksBack(test, n, cur, prev))
    decreases |ns|
  {
    if ns != [] {
      var init := ns[..|ns| - 1];
      OptionsFromMembers(size, occ, init, cur, prev, avoid, test);
      assert ns == init + [ns[|ns| - 1]];
    }
  }

  /** `options` holds exactly the available neighbours the test does not skip, at most six. */
  lemma OptionsMembers(size: Vec3, occ: set<Vec3>, cur: Vec3, prev: Vec3, avoid: bool, test: BacktrackTest)
    ensures var o := Options(size, occ, cur, prev, avoid, test);
      |o| <= 6 &&
      forall n :: n in o <==> Free(size, occ, n) && IsUnitAxis(n.Sub(cur)) &&
                              !(avoid && LooksBack(test, n, cur, prev))
  {
    FreeNeighboursFacts(size, occ, cur);
    OptionsFromMembers(size, occ, FreeNeighbours(size, occ, cur), cur, prev, avoid, test);
  }

  /** With nothing skipped, the re-check of availability keeps every neighbour: `options` is
      the neighbour list itself. */
  lemma {:induction false} OptionsFromKeepsAll(size: Vec3, occ: set<Vec3>, ns: seq<Vec3>, cur: Vec3,
                                               prev: Vec3, avoid: bool, test: BacktrackTest)
    requires forall k :: 0 <= k < |ns| ==> Free(size, occ, ns[k]) && !(avoid && LooksBack(test, ns[k], cur, prev))
    ensures OptionsFrom(size, occ, ns, cur, prev, avoid, test) == ns
    decreases |ns|
  {
    if ns != [] {
      var init := ns[..|ns| - 1];
      OptionsFromKeepsAll(size, occ, init, cur, prev, avoid, test);
      assert ns == init + [ns[|ns| - 1]];
    }
  }

  /** Without `avoidBacktrack`, `options` equals the available neighbours in order. */
  lemma OptionsWithoutAvoid(size: Vec3, occ: set<Vec3>, cur: Vec3, prev: Vec3, test: BacktrackTest)
    ensures Options(size, occ, cur, prev, false, test) == FreeNeighbours(size, occ, cur)
  {
    var ns := FreeNeighbours(size, occ, cur);
    FreeNeighboursFacts(size, occ, cur);
    forall k | 0 <= k < |ns| ensures Free(size, occ, ns[k]) {
      assert ns[k] in ns;
    }
    OptionsFromKeepsAll(size, occ, ns, cur, prev, false, test);
  }

  /** Filtering a list extended by one cell filters the list, then that cell. */
  lemma {:induction false} WithoutBacktrackSnoc(ns: seq<Vec3>, x: Vec3, cur: Vec3, prev: Vec3)
    ensures WithoutBacktrack(ns + [x], cur, prev) ==
      WithoutBacktrack(ns, cur, prev) + (if x.Sub(cur) == prev.Neg() then [] else [x])
    decreases |ns|
  {
    if ns == [] {
      assert [] + [x] == [x];
    } else {
      WithoutBacktrackSnoc(ns[1..], x, cur, prev);
      assert (ns + [x])[1..] == ns[1..] + [x];
    }
  }

  /** With the difference test, the `foreach` over available neighbours is the backtrack
      filter of `GrowPipe`. */
  lemma {:induction false} OptionsFromIntended(size: Vec3, occ: set<Vec3>, ns: seq<Vec3>, cur: Vec3, prev: Vec3)
    requires forall k :: 0 <= k < |ns| ==> Free(size, occ, ns[k])
    ensures OptionsFrom(size, occ, ns, cur, prev, true, DifferenceTest) == WithoutBacktrack(ns, cur, prev)
    decreases |ns|
  {
    if ns != [] {
      var init := ns[..|ns| - 1];
      var x := ns[|ns| - 1];
      OptionsFromIntended(size, occ, init, cur, prev);
      assert ns == init + [x];
      WithoutBacktrackSnoc(init, x, cur, prev);
    }
  }

  /** The corrected `options` are the candidates of a pipe step. */
  lemma OptionsIntended(size: Vec3, occ: set<Vec3>, cur: Vec3, prev: Vec3)
    ensures Options(size, occ, cur, prev, true, DifferenceTest) == Candidates(size, occ, cur, prev)
  {
    var ns := FreeNeighbours(size, occ, cur);
    FreeNeighboursFacts(size, occ, cur);
    forall k | 0 <= k < |ns| ensures Free(size, occ, ns[k]) {
      assert ns[k] in ns;
    }
    OptionsFromIntended(size, occ, ns, cur, prev);
  }

  /** The intended property of the backtrack filter: once the walk cannot turn back, the
      corrected test removes no available neighbour. */
  lemma IntendedFilterKeepsNeighbours(size: Vec3, occ: set<Vec3>, cur: Vec3, prev: Vec3)
    requires BacktrackBlocked(size, occ, cur, prev)
    ensures Options(size, occ, cur, prev, true, DifferenceTest) == FreeNeighbours(size, occ, cur)
  {
    OptionsIntended(size, occ, cur, prev);
    BacktrackFilterInert(size, occ, cur, prev);
  }

  // ----- the walk -----

  /** A sampling run starts at `cur`, moves one axis step at a time and takes at most the
      iterations left. */
  lemma {:induction false} SamplingShape(size: Vec3, occ: set<Vec3>, cur: Vec3, prev: Vec3, i: nat,
                                         sampleLength: int, avoid: bool, test: BacktrackTest, pick: Oracle)
    requires ValidOracle(pick)
    ensures var s := Sampling(size, occ, cur, prev, i, sampleLength, avoid, test, pick);
      |s.path| >= 1 && s.path[0] == cur && UnitSteps(s.path) && |s.path| - 1 <= Max0(sampleLength - i)
    decreases sampleLength - i, 1
  {
    var opts := Options(size, occ, cur, prev, avoid, test);
    if i < sampleLength && |opts| > 0 {
      SamplingShapeStep(size, occ, cur, prev, i, sampleLength, avoid, test, pick);
    }
  }

  lemma {:induction false} SamplingShapeStep(size: Vec3, occ: set<Vec3>, cur: Vec3, prev: Vec3, i: nat,
                                             sampleLength: int, avoid: bool, test: BacktrackTest, pick: Oracle)
    requires ValidOracle(pick)
    requires i < sampleLength && |Options(size, occ, cur, prev, avoid, test)| > 0
    ensures var s := Sampling(size, occ, cur, prev, i, sampleLength, avoid, test, pick);
      |s.path| >= 1 && s.path[0] == cur && UnitSteps(s.path) && |s.path| - 1 <= Max0(sampleLength - i)
    decreases sampleLength - i, 0
  {
    var opts := Options(size, occ, cur, prev, avoid, test);
    var chosen := opts[pick(i, |opts|)];
    OptionsMembers(size, occ, cur, prev, avoid, test);
    assert chosen in opts;
    var occ' := OccupyIn(size, occ, chosen);
    SamplingShape(size, occ', chosen, chosen.Sub(cur), i + 1, sampleLength, avoid, test, pick);
    var rest := Sampling(size, occ', chosen, chosen.Sub(cur), i + 1, sampleLength, avoid, test, pick);
    var path := [cur] + rest.path;
    assert path[1..] == rest.path;
    forall k | 0 <= k < |path| - 1
      ensures IsUnitAxis(path[k + 1].Sub(path[k]))
    {
      if k > 0 {
        assert path[k] == rest.path[k - 1] && path[k + 1] == rest.path[k];
      }
    }
  }

  /** Each iteration enters a cell that was free, each at most once, and reserves it: the run
      reserves exactly the cells it enters. */
  lemma {:induction false} SamplingCells(size: Vec3, occ: set<Vec3>, cur: Vec3, prev: Vec3, i: nat,
                                         sampleLength: int, avoid: bool, test: BacktrackTest, pick: Oracle)
    requires ValidOracle(pick)
    ensures var s := Sampling(size, occ, cur, prev, i, sampleLength, avoid, test, pick);
      |s.path| >= 1 && Distinct(s.path[1..]) &&
      (forall k :: 1 <= k < |s.path| ==> Free(size, occ, s.path[k])) &&
      s.occ == occ + CellSet(s.path[1..])
    decreases sampleLength - i, 1
  {
    var opts := Options(size, occ, cur, prev, avoid, test);
    if i < sampleLength && |opts| > 0 {
      SamplingCellsStep(size, occ, cur, prev, i, sampleLength, avoid, test, pick);
    } else {
      assert Sampling(size, occ, cur, prev, i, sampleLength, avoid, test, pick).path[1..] == [];
    }
  }

  lemma {:induction false} SamplingCellsStep(size: Vec3, occ: set<Vec3>, cur: Vec3, prev: Vec3, i: nat,
                                             sampleLength: int, avoid: bool, test: BacktrackTest, pick: Oracle)
    requires ValidOracle(pick)
    requires i < sampleLength && |Options(size, occ, cur, prev, avoid, test)| > 0
    ensures var s := Sampling(size, occ, cur, prev, i, sampleLength, avoid, test, pick);
      |s.path| >= 1 && Distinct(s.path[1..]) &&
      (forall k :: 1 <= k < |s.path| ==> Free(size, occ, s.path[k])) &&
      s.occ == occ + CellSet(s.path[1..])
    decreases sampleLength - i, 0
  {
    var opts := Options(size, occ, cur, prev, avoid, test);
    var chosen := opts[pick(i, |opts|)];
    OptionsMembers(size, occ, cur, prev, avoid, test);
    assert chosen in opts;
    var occ' := OccupyIn(size, occ, chosen);
    OccupyFacts(size, occ, chosen);
    assert occ' == occ + {chosen};
    SamplingShape(size, occ', chosen, chosen.Sub(cur), i + 1, sampleLength, avoid, test, pick);
    SamplingCells(size, occ', chosen, chosen.Sub(cur), i + 1, sampleLength, avoid, test, pick);
    var rest := Sampling(size, occ', chosen, chosen.Sub(cur), i + 1, sampleLength, avoid, test, pick);
    var s := Sampling(size, occ, cur, prev, i, sampleLength, avoid, test, pick);
    assert s.path[1..] == rest.path;
    forall k | 1 <= k < |s.path|
      ensures Free(size, occ, s.path[k])
    {
      assert s.path[k] == rest.path[k - 1];
    }
    forall k, l | 0 <= k < l < |rest.path|
      ensures rest.path[k] != rest.path[l]
    {
      if k == 0 {
        assert !Free(size, occ', chosen);
      } else {
        assert rest.path[1..][k - 1] == rest.path[k] && rest.path[1..][l - 1] == rest.path[l];
      }
    }
    assert CellSet(rest.path) == {chosen} + CellSet(rest.path[1..]);
  }

  /** A stopped run visits only `cur` and reserves nothing more. */
  lemma SamplingStopsHere(size: Vec3, occ: set<Vec3>, cur: Vec3, prev: Vec3, i: nat, sampleLength: int,
                          avoid: bool, test: BacktrackTest, pick: Oracle)
    requires ValidOracle(pick)
    requires i >= sampleLength || |Options(size, occ, cur, prev, avoid, test)| == 0
    ensures Sampling(size, occ, cur, prev, i, sampleLength, avoid, test, pick) == Sample([cur], occ)
  {
  }

  /** A run that goes on steps to the drawn option and ends with the reservations of the run
      from there. */
  lemma SamplingAdvances(size: Vec3, occ: set<Vec3>, cur: Vec3, prev: Vec3, i: nat, sampleLength: int,
                         avoid: bool, test: BacktrackTest, pick: Oracle, opts: seq<Vec3>)
    requires ValidOracle(pick)
    requires opts == Options(size, occ, cur, prev, avoid, test)
    requires i < sampleLength && |opts| > 0
    ensures var chosen := opts[pick(i, |opts|)];
      Sampling(size, occ, cur, prev, i, sampleLength, avoid, test, pick).occ ==
      Sampling(size, OccupyIn(size, occ, chosen), chosen, chosen.Sub(cur), i + 1, sampleLength, avoid, test, pick).occ
  {
  }

  /** With the corrected test the demo's loop is the pipe walk: same cells, same reservations. */
  lemma {:induction false} SamplingIsWalk(size: Vec3, occ: set<Vec3>, cur: Vec3, prev: Vec3, i: nat,
                                          sampleLength: int, pick: Oracle)
    requires ValidOracle(pick)
    ensures var w := Walk(size, occ, cur, prev, i, sampleLength, pick);
      Sampling(size, occ, cur, prev, i, sampleLength, true, DifferenceTest, pick) == Sample(w.path, w.occ)
    decreases sampleLength - i
  {
    OptionsIntended(size, occ, cur, prev);
    if !Stops(size, occ, cur, prev, i, sampleLength) {
      var next := NextCell(size, occ, cur, prev, i, pick);
      SamplingIsWalk(size, OccupyIn(size, occ, next), next, next.Sub(cur), i + 1, sampleLength, pick);
    }
  }

  /** Without `avoidBacktrack` the demo's loop is the unfiltered walk. */
  lemma {:induction false} SamplingWithoutAvoid(size: Vec3, occ: set<Vec3>, cur: Vec3, prev: Vec3, i: nat,
                                                sampleLength: int, test: BacktrackTest, pick: Oracle)
    requires ValidOracle(pick)
    ensures var w := PlainWalk(size, occ, cur, i, sampleLength, pick);
      Sampling(size, occ, cur, prev, i, sampleLength, false, test, pick) == Sample(w.path, w.occ)
    decreases sampleLength - i
  {
    OptionsWithoutAvoid(size, occ, cur, prev, test);
    var cands := FreeNeighbours(size, occ, cur);
    if i < sampleLength && |cands| > 0 {
      var next := cands[pick(i, |cands|)];
      SamplingWithoutAvoid(size, OccupyIn(size, occ, next), next, next.Sub(cur), i + 1, sampleLength, test, pick);
    }
  }

  // ----- Rebuild -----

  /** The start cell lies in the grid exactly when no requested dimension is below -1 (C#'s
      `-1 / 2` is 0, and the grid is at least one cell wide). */
  lemma CentreInside(gridSize: Vec3)
    ensures InBox(Centre(gridSize), ClampSize(gridSize)) <==>
      gridSize.x >= -1 && gridSize.y >= -1 && gridSize.z >= -1
  {
  }

  /** A rebuild starts at the centre and takes at most `sampleLength` steps, each one unit
      along an axis. */
  lemma RebuiltShape(gridSize: Vec3, sampleLength: int, avoid: bool, test: BacktrackTest, pick: Oracle)
    requires ValidOracle(pick)
    ensures var r := Rebuilt(gridSize, sampleLength, avoid, test, pick);
      |r.path| >= 1 && r.path[0] == Centre(gridSize) && UnitSteps(r.path) &&
      |r.path| - 1 <= Max0(sampleLength)
  {
    var size := ClampSize(gridSize);
    var start := Centre(gridSize);
    SamplingShape(size, OccupyIn(size, {}, start), start, Zero, 0, sampleLength, avoid, test, pick);
  }

  /** A rebuild never visits a cell twice, enters only cells inside the grid, and reserves the
      start (when it is inside) and each cell it enters: at most `sampleLength + 1` cells. */
  lemma RebuiltCells(gridSize: Vec3, sampleLength: int, avoid: bool, test: BacktrackTest, pick: Oracle)
    requires ValidOracle(pick)
    ensures var r := Rebuilt(gridSize, sampleLength, avoid, test, pick);
      var size := ClampSize(gridSize);
      var start := Centre(gridSize);
      |r.path| >= 1 && Distinct(r.path) &&
      (forall k :: 1 <= k < |r.path| ==> InBox(r.path[k], size)) &&
      r.occ == OccupyIn(size, {}, start) + CellSet(r.path[1..]) &&
      |r.occ| <= Max0(sampleLength) + 1
  {
    var size := ClampSize(gridSize);
    var start := Centre(gridSize);
    var occ0 := OccupyIn(size, {}, start);
    RebuiltShape(gridSize, sampleLength, avoid, test, pick);
    SamplingCells(size, occ0, start, Zero, 0, sampleLength, avoid, test, pick);
    var path := Rebuilt(gridSize, sampleLength, avoid, test, pick).path;
    StartThenFreeCells(size, occ0, start, path);
    assert |occ0| <= 1 by {
      if InBox(start, size) {
        assert occ0 == {start};
      }
    }
  }

  /** A path that starts at a cell which is not free and then enters distinct free cells is
      distinct, and reserving its cells after the start adds exactly that many. */
  lemma StartThenFreeCells(size: Vec3, occ: set<Vec3>, start: Vec3, path: seq<Vec3>)
    requires |path| >= 1 && path[0] == start && !Free(size, occ, start)
    requires Distinct(path[1..]) && forall k :: 1 <= k < |path| ==> Free(size, occ, path[k])
    ensures Distinct(path)
    ensures |occ + CellSet(path[1..])| == |occ| + |path| - 1
  {
    var tail := path[1..];
    forall k | 0 <= k < |tail| ensures Free(size, occ, tail[k]) {
      assert tail[k] == path[k + 1];
    }
    forall k, l | 0 <= k < l < |path| ensures path[k] != path[l] {
      if k == 0 {
        assert Free(size, occ, path[l]);
      } else {
        assert tail[k - 1] == path[k] && tail[l - 1] == path[l];
      }
    }
    ReserveFreeCells(size, occ, tail);
  }

  /** With the corrected test, `avoidBacktrack` changes nothing: a rebuild is the same with or
      without it, and both are the pipe walk from the centre. */
  lemma RebuiltIgnoresAvoid(gridSize: Vec3, sampleLength: int, test: BacktrackTest, pick: Oracle)
    requires ValidOracle(pick)
    ensures Rebuilt(gridSize, sampleLength, true, DifferenceTest, pick) ==
            Rebuilt(gridSize, sampleLength, false, test, pick)
  {
    var size := ClampSize(gridSize);
    var start := Centre(gridSize);
    var occ0 := OccupyIn(size, {}, start);
    OccupyFacts(size, {}, start);
    SamplingIsWalk(size, occ0, start, Zero, 0, sampleLength, pick);
    SamplingWithoutAvoid(size, occ0, start, Zero, 0, sampleLength, test, pick);
    WalkIgnoresBacktrackFilter(size, occ0, start, Zero, 0, sampleLength, pick);
  }

  // ----- the as-written test -----

  /** Where the two tests disagree on a neighbour `n` one unit step from `cur`, `prev` being
      the last step taken or zero before the first: the sum test skips a cell the difference
      test keeps only when the walk stands on the unit cell `-prev`, having just moved towards
      the origin, and `n` is the origin; it keeps a cell the difference test skips only away
      from the origin. */
  lemma TestsDisagree(n: Vec3, cur: Vec3, prev: Vec3)
    requires IsUnitAxis(n.Sub(cur))
    requires Abs(prev.x) + Abs(prev.y) + Abs(prev.z) <= 1
    ensures LooksBack(SumTest, n, cur, prev) && !LooksBack(DifferenceTest, n, cur, prev) ==>
            prev != Zero && cur == prev.Neg() && n == Zero
    ensures LooksBack(DifferenceTest, n, cur, prev) && !LooksBack(SumTest, n, cur, prev) ==>
            cur != Zero
  {
    LooksBackParts(n, cur, prev);
    assert Abs(n.x - cur.x) + Abs(n.y - cur.y) + Abs(n.z - cur.z) == 1 by {
      assert n.Sub(cur) == Vec3(n.x - cur.x, n.y - cur.y, n.z - cur.z);
    }
    SumWithoutDifference(n.x, n.y, n.z, cur.x, cur.y, cur.z, prev.x, prev.y, prev.z);
    ZeroParts(prev);
    ZeroParts(n);
    ZeroParts(cur);
    NegParts(cur, prev);
  }

  /** Both tests, coordinate by coordinate. */
  lemma LooksBackParts(n: Vec3, cur: Vec3, prev: Vec3)
    ensures LooksBack(SumTest, n, cur, prev) <==>
            n.x + cur.x == -prev.x && n.y + cur.y == -prev.y && n.z + cur.z == -prev.z
    ensures LooksBack(DifferenceTest, n, cur, prev) <==>
            n.x - cur.x == -prev.x && n.y - cur.y == -prev.y && n.z - cur.z == -prev.z
  {
  }

  lemma ZeroParts(v: Vec3)
    ensures v == Zero <==> v.x == 0 && v.y == 0 && v.z == 0
  {
  }

  lemma NegParts(u: Vec3, v: Vec3)
    ensures u == v.Neg() <==> u.x == -v.x && u.y == -v.y && u.z == -v.z
  {
  }

  /** `TestsDisagree` on coordinates: `n` is one unit step from `c`, `p` is a unit step or
      zero, the sum test holds and the difference test does not. */
  lemma SumWithoutDifference(nx: int, ny: int, nz: int, cx: int, cy: int, cz: int,
                             px: int, py: int, pz: int)
    requires Abs(nx - cx) + Abs(ny - cy) + Abs(nz - cz) == 1
    requires Abs(px) + Abs(py) + Abs(pz) <= 1
    ensures nx + cx == -px && ny + cy == -py && nz + cz == -pz &&
            !(nx - cx == -px && ny - cy == -py && nz - cz == -pz) ==>
            nx == 0 && ny == 0 && nz == 0 && cx == -px && cy == -py && cz == -pz &&
            !(px == 0 && py == 0 && pz == 0)
  {
    if nx + cx == -px && ny + cy == -py && nz + cz == -pz {
      AxisSum(nx, cx, px);
      AxisSum(ny, cy, py);
      AxisSum(nz, cz, pz);
    }
  }

  /** One coordinate of `n + c == -p` with `n - c` and `p` each at most one in size: nothing
      moves along this axis, or the step repeats `p` from `-p`, or it reverses `p` from zero. */
  lemma AxisSum(n: int, c: int, p: int)
    requires -1 <= n - c <= 1 && -1 <= p <= 1 && n + c == -p
    ensures (n - c == 0 && p == 0 && c == 0) || (n - c != 0 && n - c == p && c == -p) ||
            (n - c != 0 && n - c == -p && c == 0)
  {
  }

  /** A one-cell neighbour list yields that cell unless the test skips it. */
  lemma OneOption(size: Vec3, occ: set<Vec3>, cur: Vec3, prev: Vec3, n: Vec3, test: BacktrackTest)
    requires FreeNeighbours(size, occ, cur) == [n]
    ensures Options(size, occ, cur, prev, true, test) == if LooksBack(test, n, cur, prev) then [] else [n]
  {
    FreeNeighboursFacts(size, occ, cur);
    assert n in FreeNeighbours(size, occ, cur);
    assert Kept(size, occ, n) == [n];
    var none: seq<Vec3> := [];
    assert [n][..0] == none;
    assert OptionsFrom(size, occ, none, cur, prev, true, test) == none;
    assert OptionsFrom(size, occ, [n], cur, prev, true, test) == none + Admit(size, occ, n, cur, prev, true, test);
  }

  /** A two-cell neighbour list that the test does not touch is the list of options. */
  lemma TwoOptions(size: Vec3, occ: set<Vec3>, cur: Vec3, prev: Vec3, a: Vec3, b: Vec3, test: BacktrackTest)
    requires FreeNeighbours(size, occ, cur) == [a, b]
    requires !LooksBack(test, a, cur, prev) && !LooksBack(test, b, cur, prev)
    ensures Options(size, occ, cur, prev, true, test) == [a, b]
  {
    var ns := FreeNeighbours(size, occ, cur);
    FreeNeighboursFacts(size, occ, cur);
    forall k | 0 <= k < |ns| ensures Free(size, occ, ns[k]) && !LooksBack(test, ns[k], cur, prev) {
      assert ns[k] in ns;
    }
    OptionsFromKeepsAll(size, occ, ns, cur, prev, true, test);
  }

  /** The cells of the counterexample on a 5 x 1 x 1 grid: the centre `s` = (2, 0, 0), its
      neighbours `a` = (3, 0, 0) and `b` = (1, 0, 0), the end cell `n` = (0, 0, 0), and the
      direction `prev` = (-1, 0, 0) of the step from `s` to `b`. */
  predicate EdgeLayout(size: Vec3, s: Vec3, a: Vec3, b: Vec3, n: Vec3, prev: Vec3)
  {
    size.x == 5 && size.y == 1 && size.z == 1 &&
    s.x == 2 && s.y == 0 && s.z == 0 && a.x == 3 && a.y == 0 && a.z == 0 &&
    b.x == 1 && b.y == 0 && b.z == 0 && n.x == 0 && n.y == 0 && n.z == 0 &&
    prev.x == -1 && prev.y == 0 && prev.z == 0
  }

  /** The centre, alone taken, has the free neighbours `a` and `b`, in that order. */
  lemma CentreNeighbours(size: Vec3, s: Vec3, a: Vec3, b: Vec3, n: Vec3, prev: Vec3)
    requires EdgeLayout(size, s, a, b, n, prev)
    ensures FreeNeighbours(size, {s}, s) == [a, b]
  {
    var occ := {s};
    FreeNeighboursInOrder(size, occ, s);
    assert s.Add(Right) == a;
    assert s.Add(Left) == b;
    assert Kept(size, occ, s.Add(Right)) == [a];
    assert Kept(size, occ, s.Add(Left)) == [b];
    assert Kept(size, occ, s.Add(Up)) == [];
    assert Kept(size, occ, s.Add(Down)) == [];
    assert Kept(size, occ, s.Add(Forward)) == [];
    assert Kept(size, occ, s.Add(Back)) == [];
  }

  /** With `s` and `b` taken, `b` has the one free neighbour `n`. */
  lemma EdgeNeighbours(size: Vec3, s: Vec3, a: Vec3, b: Vec3, n: Vec3, prev: Vec3)
    requires EdgeLayout(size, s, a, b, n, prev)
    ensures FreeNeighbours(size, {s, b}, b) == [n]
  {
    var occ := {s, b};
    FreeNeighboursInOrder(size, occ, b);
    assert b.Add(Right) == s;
    assert b.Add(Left) == n;
    assert Kept(size, occ, b.Add(Right)) == [];
    assert Kept(size, occ, b.Add(Left)) == [n];
    assert Kept(size, occ, b.Add(Up)) == [];
    assert Kept(size, occ, b.Add(Down)) == [];
    assert Kept(size, occ, b.Add(Forward)) == [];
    assert Kept(size, occ, b.Add(Back)) == [];
  }

  /** With no previous direction neither test skips a cell that is neither `cur` nor `-cur`. */
  lemma FirstStepTests(a: Vec3, cur: Vec3, test: BacktrackTest)
    requires a.x != cur.x && a.x != -cur.x
    ensures !LooksBack(test, a, cur, Zero)
  {
    assert Zero.Neg() == Vec3(0, 0, 0);
    assert a.Add(cur).x != 0 && a.Sub(cur).x != 0;
  }

  /** The step from `s` to `b` goes along `prev`; from `b` the sum test then skips `n` and the
      difference test does not. */
  lemma EdgeTests(size: Vec3, s: Vec3, a: Vec3, b: Vec3, n: Vec3, prev: Vec3)
    requires EdgeLayout(size, s, a, b, n, prev)
    ensures b.Sub(s) == prev
    ensures LooksBack(SumTest, n, b, prev) && !LooksBack(DifferenceTest, n, b, prev)
  {
    assert prev == Vec3(prev.x, prev.y, prev.z);
    assert prev.Neg() == Vec3(1, 0, 0);
  }

  /** Reserving `b`, then `n`, adds each to the reserved cells. */
  lemma EdgeReservations(size: Vec3, s: Vec3, a: Vec3, b: Vec3, n: Vec3, prev: Vec3)
    requires EdgeLayout(size, s, a, b, n, prev)
    ensures OccupyIn(size, {s}, b) == {s, b}
    ensures OccupyIn(size, {s, b}, n) == {s, b, n}
  {
    assert InBox(b, size) && InBox(n, size);
  }

  /** At `b`, having come along -x from the centre, the sum test leaves no option though `n` is
      available; the difference test keeps it. */
  lemma SumTestSkipsFreeNeighbour(size: Vec3, s: Vec3, a: Vec3, b: Vec3, n: Vec3, prev: Vec3)
    requires EdgeLayout(size, s, a, b, n, prev)
    ensures FreeNeighbours(size, {s, b}, b) == [n]
    ensures Options(size, {s, b}, b, prev, true, SumTest) == []
    ensures Options(size, {s, b}, b, prev, true, DifferenceTest) == [n]
  {
    EdgeNeighbours(size, s, a, b, n, prev);
    EdgeTests(size, s, a, b, n, prev);
    OneOption(size, {s, b}, b, prev, n, SumTest);
    OneOption(size, {s, b}, b, prev, n, DifferenceTest);
  }

  /** A requested 5 x 1 x 1 grid is kept as it is, its centre is `s`, and that is the only
      cell reserved before the loop. */
  lemma EdgeStart(gridSize: Vec3, s: Vec3, a: Vec3, b: Vec3, n: Vec3, prev: Vec3)
    requires EdgeLayout(gridSize, s, a, b, n, prev)
    ensures ClampSize(gridSize) == gridSize && Centre(gridSize) == s
    ensures OccupyIn(gridSize, {}, s) == {s}
  {
    assert InBox(s, gridSize);
  }

  /** An iteration with exactly the options `[a, b]` in which the second draw is taken: the
      run goes on from `b`, with `b` reserved as `occ'`. */
  lemma SecondOfTwo(size: Vec3, occ: set<Vec3>, cur: Vec3, prev: Vec3, i: nat, sampleLength: int,
                    test: BacktrackTest, pick: Oracle, a: Vec3, b: Vec3, occ': set<Vec3>)
    requires ValidOracle(pick) && pick(i, 2) == 1 && i < sampleLength
    requires Options(size, occ, cur, prev, true, test) == [a, b]
    requires OccupyIn(size, occ, b) == occ'
    ensures Sampling(size, occ, cur, prev, i, sampleLength, true, test, pick).occ ==
            Sampling(size, occ', b, b.Sub(cur), i + 1, sampleLength, true, test, pick).occ
  {
    SamplingAdvances(size, occ, cur, prev, i, sampleLength, true, test, pick, [a, b]);
  }

  /** An iteration with the single option `n`: the run goes on from `n`, with `n` reserved as
      `occ'`. */
  lemma OnlyOption(size: Vec3, occ: set<Vec3>, cur: Vec3, prev: Vec3, i: nat, sampleLength: int,
                   test: BacktrackTest, pick: Oracle, n: Vec3, occ': set<Vec3>)
    requires ValidOracle(pick) && i < sampleLength
    requires Options(size, occ, cur, prev, true, test) == [n]
    requires OccupyIn(size, occ, n) == occ'
    ensures Sampling(size, occ, cur, prev, i, sampleLength, true, test, pick).occ ==
            Sampling(size, occ', n, n.Sub(cur), i + 1, sampleLength, true, test, pick).occ
  {
    assert pick(i, 1) == 0;
    SamplingAdvances(size, occ, cur, prev, i, sampleLength, true, test, pick, [n]);
  }

  /** Neither test skips `a` or `b` on the first step from the centre. */
  lemma EdgeFirstTests(s: Vec3, a: Vec3, b: Vec3, test: BacktrackTest)
    requires s.x == 2 && a.x == 3 && b.x == 1
    ensures !LooksBack(test, a, s, Zero) && !LooksBack(test, b, s, Zero)
  {
    FirstStepTests(a, s, test);
    FirstStepTests(b, s, test);
  }

  /** The first iteration from the centre: neither test skips `a` or `b`. */
  lemma EdgeFirstOptions(size: Vec3, s: Vec3, a: Vec3, b: Vec3, n: Vec3, prev: Vec3, test: BacktrackTest)
    requires EdgeLayout(size, s, a, b, n, prev)
    ensures Options(size, {s}, s, Zero, true, test) == [a, b]
  {
    CentreNeighbours(size, s, a, b, n, prev);
    EdgeFirstTests(s, a, b, test);
    TwoOptions(size, {s}, s, Zero, a, b, test);
  }

  /** A rebuild of two iterations from `start` in which the first offers `[a, b]` and takes
      `b`, and the second offers nothing: it reserves `start` and `b` and stops. */
  lemma StopsAfterSecondOfTwo(gridSize: Vec3, start: Vec3, a: Vec3, b: Vec3, prev: Vec3, test: BacktrackTest,
                              pick: Oracle)
    requires ValidOracle(pick) && pick(0, 2) == 1
    requires ClampSize(gridSize) == gridSize && Centre(gridSize) == start
    requires OccupyIn(gridSize, {}, start) == {start}
    requires Options(gridSize, {start}, start, Zero, true, test) == [a, b]
    requires OccupyIn(gridSize, {start}, b) == {start, b} && b.Sub(start) == prev
    requires Options(gridSize, {start, b}, b, prev, true, test) == []
    ensures Rebuilt(gridSize, 2, true, test, pick).occ == {start, b}
  {
    SecondOfTwo(gridSize, {start}, start, Zero, 0, 2, test, pick, a, b, {start, b});
    SamplingStopsHere(gridSize, {start, b}, b, prev, 1, 2, true, test, pick);
  }

  /** A rebuild of two iterations from `start` in which the first offers `[a, b]` and takes
      `b`, and the second offers only `n`: it reserves `start`, `b` and `n`. */
  lemma GoesOnAfterSecondOfTwo(gridSize: Vec3, start: Vec3, a: Vec3, b: Vec3, n: Vec3, prev: Vec3,
                               test: BacktrackTest, pick: Oracle)
    requires ValidOracle(pick) && pick(0, 2) == 1
    requires ClampSize(gridSize) == gridSize && Centre(gridSize) == start
    requires OccupyIn(gridSize, {}, start) == {start}
    requires Options(gridSize, {start}, start, Zero, true, test) == [a, b]
    requires OccupyIn(gridSize, {start}, b) == {start, b} && b.Sub(start) == prev
    requires Options(gridSize, {start, b}, b, prev, true, test) == [n]
    requires OccupyIn(gridSize, {start, b}, n) == {start, b, n}
    ensures Rebuilt(gridSize, 2, true, test, pick).occ == {start, b, n}
  {
    SecondOfTwo(gridSize, {start}, start, Zero, 0, 2, test, pick, a, b, {start, b});
    OnlyOption(gridSize, {start, b}, b, prev, 1, 2, test, pick, n, {start, b, n});
    SamplingStopsHere(gridSize, {start, b, n}, n, n.Sub(b), 2, 2, true, test, pick);
  }

  /** The run of the counterexample with the cells named: after the first step to `b` the
      as-written run stops, the corrected one goes on to `n`. */
  lemma EdgeRun(gridSize: Vec3, pick: Oracle, s: Vec3, a: Vec3, b: Vec3, n: Vec3, prev: Vec3)
    requires ValidOracle(pick) && pick(0, 2) == 1
    requires EdgeLayout(gridSize, s, a, b, n, prev)
    ensures Rebuilt(gridSize, 2, true, SumTest, pick).occ == {s, b}
    ensures Rebuilt(gridSize, 2, true, DifferenceTest, pick).occ == {s, b, n}
  {
    EdgeStart(gridSize, s, a, b, n, prev);
    EdgeTests(gridSize, s, a, b, n, prev);
    EdgeReservations(gridSize, s, a, b, n, prev);
    EdgeFirstOptions(gridSize, s, a, b, n, prev, SumTest);
    EdgeFirstOptions(gridSize, s, a, b, n, prev, DifferenceTest);
    SumTestSkipsFreeNeighbour(gridSize, s, a, b, n, prev);
    StopsAfterSecondOfTwo(gridSize, s, a, b, prev, SumTest, pick);
    GoesOnAfterSecondOfTwo(gridSize, s, a, b, n, prev, DifferenceTest, pick);
  }

  /** The counterexample from the start: on a requested 5 x 1 x 1 grid with two samples, when
      the first draw takes the second option (the step along -x), the as-written demo stops
      after one step although (0, 0, 0) is free, while the corrected one goes on to it. */
  lemma SumTestStopsEarly(pick: Oracle)
    requires ValidOracle(pick) && pick(0, 2) == 1
    ensures Rebuilt(Vec3(5, 1, 1), 2, true, SumTest, pick).occ == {Vec3(2, 0, 0), Vec3(1, 0, 0)}
    ensures Rebuilt(Vec3(5, 1, 1), 2, true, DifferenceTest, pick).occ ==
            {Vec3(2, 0, 0), Vec3(1, 0, 0), Vec3(0, 0, 0)}
  {
    EdgeRun(Vec3(5, 1, 1), pick, Vec3(2, 0, 0), Vec3(3, 0, 0), Vec3(1, 0, 0), Vec3(0, 0, 0), Vec3(-1, 0, 0));
  }

  // ----- the component -----

  class CellSpawnerDemo {
    var gridSize: Vec3
    var sampleLength: int
    var avoidBacktrack: bool
    /** The grid of the last rebuild; none before the first. */
    var grid: CellGrid3D?

    constructor (gridSize: Vec3, sampleLength: int, avoidBacktrack: bool)
      ensures this.gridSize == gridSize && this.sampleLength == sampleLength
      ensures this.avoidBacktrack == avoidBacktrack && grid == null
    {
      this.gridSize := gridSize;
      this.sampleLength := sampleLength;
      this.avoidBacktrack := avoidBacktrack;
      grid := null;
    }

    /** One pass of the `foreach`: `options` for the current cell, built neighbour by
        neighbour, with `test` deciding which neighbour is the backtrack cell. */
    method CollectOptions(g: CellGrid3D, currentCell: Vec3, prevDirection: Vec3, test: BacktrackTest)
      returns (options: seq<Vec3>)
      requires g.Valid()
      ensures options == Options(g.Size, g.Occ, currentCell, prevDirection, avoidBacktrack, test)
    {
      var neighbours := g.AvailableNeighbouringCell(currentCell);
      options := [];
      var j := 0;
      while j < |neighbours|
        invariant 0 <= j <= |neighbours|
        invariant options ==
          OptionsFrom(g.Size, g.Occ, neighbours[..j], currentCell, prevDirection, avoidBacktrack, test)
      {
        var nextCell := neighbours[j];
        assert neighbours[..j + 1][..j] == neighbours[..j];
        var direction := if test == SumTest then nextCell.Add(currentCell) else nextCell.Sub(currentCell);
        if !(avoidBacktrack && direction == prevDirection.Neg()) {
          if g.IsAvailable(nextCell) {
            options := options + [nextCell];
          }
        }
        j := j + 1;
      }
      assert neighbours[..j] == neighbours;
    }

    /** The `for` loop of `Rebuild` on the grid `g` from `currentCell`: it reserves exactly what
        `Sampling` with the same test reserves. `pick(i, n)` is `Random.Range(0, n)` at
        iteration `i`. */
    method SampleWalk(g: CellGrid3D, currentCell: Vec3, test: BacktrackTest, pick: Oracle)
      requires g.Valid() && ValidOracle(pick)
      modifies g, g.occupied
      ensures g.Valid()
      ensures g.Occ ==
        Sampling(g.Size, old(g.Occ), currentCell, Zero, 0, sampleLength, avoidBacktrack, test, pick).occ
    {
      ghost var target :=
        Sampling(g.Size, g.Occ, currentCell, Zero, 0, sampleLength, avoidBacktrack, test, pick).occ;
      var currentCell := currentCell;
      var prevDirection := Zero;
      var i := 0;
      while i < sampleLength
        invariant g.Valid()
        invariant Sampling(g.Size, g.Occ, currentCell, prevDirection, i, sampleLength, avoidBacktrack,
                           test, pick).occ == target
        decreases sampleLength - i
      {
        var options := CollectOptions(g, currentCell, prevDirection, test);
        if |options| == 0 {
          SamplingStopsHere(g.Size, g.Occ, currentCell, prevDirection, i, sampleLength, avoidBacktrack,
                            test, pick);
          return;
        }
        SamplingAdvances(g.Size, g.Occ, currentCell, prevDirection, i, sampleLength, avoidBacktrack,
                         test, pick, options);
        var chosen := options[pick(i, |options|)];
        prevDirection := chosen.Sub(currentCell);
        currentCell := chosen;
        g.Occupy(currentCell);
        i := i + 1;
      }
      SamplingStopsHere(g.Size, g.Occ, currentCell, prevDirection, i, sampleLength, avoidBacktrack,
                        test, pick);
    }

    /** `Rebuild`: a fresh grid of the clamped size holding exactly what `Rebuilt` reserves.
        With `SumTest` this is the method as written; with `DifferenceTest` it is the
        corrected one, which `RebuiltIgnoresAvoid` shows never skips an available cell. */
    method Rebuild(test: BacktrackTest, pick: Oracle)
      requires ValidOracle(pick)
      modifies this
      ensures grid != null && fresh(grid) && grid.Valid()
      ensures gridSize == old(gridSize) && sampleLength == old(sampleLength)
      ensures avoidBacktrack == old(avoidBacktrack)
      ensures grid.Size == ClampSize(gridSize)
      ensures grid.Occ == Rebuilt(gridSize, sampleLength, avoidBacktrack, test, pick).occ
    {
      var g := new CellGrid3D(gridSize);
      var currentCell := Centre(gridSize);
      g.Occupy(currentCell);
      SampleWalk(g, currentCell, test, pick);
      grid := g;
    }
  }
}
