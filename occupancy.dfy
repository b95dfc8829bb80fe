/** The occupancy lattice as a value: a grid size and the set of reserved cells.
    Both grid classes are proved against these definitions. */
module Occupancy {
  import opened Lattice

  /** A size with positive dimensions and a set of reserved cells inside it. */
  ghost predicate WellFormed(size: Vec3, occ: set<Vec3>)
  {
    size.x >= 1 && size.y >= 1 && size.z >= 1 &&
    forall c :: c in occ ==> InBox(c, size)
  }

  /** In bounds and not reserved: `IsAvailable`. */
  predicate Free(size: Vec3, occ: set<Vec3>, c: Vec3)
  {
    InBox(c, size) && c !in occ
  }

  /** The reservations after `Occupy(c)`: an in-bounds cell is added, an out-of-bounds one ignored. */
  function OccupyIn(size: Vec3, occ: set<Vec3>, c: Vec3): set<Vec3>
  {
    if InBox(c, size) then occ + {c} else occ
  }

  /** Occupy marks exactly the target cell, is a no-op out of bounds and is idempotent. */
  lemma OccupyFacts(size: Vec3, occ: set<Vec3>, c: Vec3)
    ensures forall d :: d in OccupyIn(size, occ, c) <==> d in occ || (d == c && InBox(c, size))
    ensures !Free(size, OccupyIn(size, occ, c), c)
    ensures OccupyIn(size, OccupyIn(size, occ, c), c) == OccupyIn(size, occ, c)
    ensures WellFormed(size, occ) ==> WellFormed(size, OccupyIn(size, occ, c))
  {
  }

  /** `[n]` when `n` is free, otherwise nothing. */
  function Kept(size: Vec3, occ: set<Vec3>, n: Vec3): seq<Vec3>
  {
    if Free(size, occ, n) then [n] else []
  }

  /** The available cells among the neighbours of `c` in the first `k` directions of
      `Directions`, in that order. */
  function NeighboursUpTo(size: Vec3, occ: set<Vec3>, c: Vec3, k: nat): seq<Vec3>
    requires k <= |Directions|
  {
    if k == 0 then [] else NeighboursUpTo(size, occ, c, k - 1) + Kept(size, occ, c.Add(Directions[k - 1]))
  }

  /** `AvailableNeighbouringCell(c)`: the available axis neighbours of `c`, tested in the
      order +x, -x, +y, -y, +z, -z. */
  function FreeNeighbours(size: Vec3, occ: set<Vec3>, c: Vec3): seq<Vec3>
  {
    NeighboursUpTo(size, occ, c, |Directions|)
  }

  /** The neighbour list written out: each of the six neighbours, in the order +x, -x, +y,
      -y, +z, -z, when it is available. */
  lemma FreeNeighboursInOrder(size: Vec3, occ: set<Vec3>, c: Vec3)
    ensures FreeNeighbours(size, occ, c) ==
      Kept(size, occ, c.Add(Right)) + Kept(size, occ, c.Add(Left)) +
      Kept(size, occ, c.Add(Up)) + Kept(size, occ, c.Add(Down)) +
      Kept(size, occ, c.Add(Forward)) + Kept(size, occ, c.Add(Back))
  {
    assert Directions[0] == Right && Directions[1] == Left && Directions[2] == Up;
    assert Directions[3] == Down && Directions[4] == Forward && Directions[5] == Back;
    assert NeighboursUpTo(size, occ, c, 1) == Kept(size, occ, c.Add(Right));
    assert NeighboursUpTo(size, occ, c, 2) == NeighboursUpTo(size, occ, c, 1) + Kept(size, occ, c.Add(Left));
    assert NeighboursUpTo(size, occ, c, 3) == NeighboursUpTo(size, occ, c, 2) + Kept(size, occ, c.Add(Up));
    assert NeighboursUpTo(size, occ, c, 4) == NeighboursUpTo(size, occ, c, 3) + Kept(size, occ, c.Add(Down));
    assert NeighboursUpTo(size, occ, c, 5) == NeighboursUpTo(size, occ, c, 4) + Kept(size, occ, c.Add(Forward));
    assert NeighboursUpTo(size, occ, c, 6) == NeighboursUpTo(size, occ, c, 5) + Kept(size, occ, c.Add(Back));
  }

  /** The cells of `s` lie in strictly increasing direction order around `c`. */
  predicate RankSorted(s: seq<Vec3>, c: Vec3)
  {
    forall i, j :: 0 <= i < j < |s| ==> DirectionRank(s[i].Sub(c)) < DirectionRank(s[j].Sub(c))
  }

  /** The cell tested in direction `k - 1` is kept exactly when it is free; it is the only
      cell of rank `k - 1` around `c`. */
  lemma KeptMember(size: Vec3, occ: set<Vec3>, c: Vec3, k: nat, n: Vec3)
    requires 0 < k <= |Directions|
    ensures n in Kept(size, occ, c.Add(Directions[k - 1])) <==>
      Free(size, occ, n) && DirectionRank(n.Sub(c)) == k - 1
  {
    DirectionRankOf(k - 1);
    AddSub(c, Directions[k - 1]);
    if DirectionRank(n.Sub(c)) == k - 1 {
      RankDetermines(n.Sub(c));
      SubAdd(n, c);
    }
  }

  lemma {:induction false} NeighboursUpToMembers(size: Vec3, occ: set<Vec3>, c: Vec3, k: nat)
    requires k <= |Directions|
    ensures forall n :: n in NeighboursUpTo(size, occ, c, k) <==>
      Free(size, occ, n) && DirectionRank(n.Sub(c)) < k
  {
    if k > 0 {
      NeighboursUpToMembers(size, occ, c, k - 1);
      forall n
        ensures n in NeighboursUpTo(size, occ, c, k) <==> Free(size, occ, n) && DirectionRank(n.Sub(c)) < k
      {
        KeptMember(size, occ, c, k, n);
      }
    }
  }

  lemma {:induction false} NeighboursUpToOrder(size: Vec3, occ: set<Vec3>, c: Vec3, k: nat)
    requires k <= |Directions|
    ensures var r := NeighboursUpTo(size, occ, c, k);
      |r| <= k && RankSorted(r, c) &&
      (forall i :: 0 <= i < |r| ==> DirectionRank(r[i].Sub(c)) < k)
  {
    if k > 0 {
      NeighboursUpToOrder(size, occ, c, k - 1);
      var s := NeighboursUpTo(size, occ, c, k - 1);
      var n := c.Add(Directions[k - 1]);
      DirectionRankOf(k - 1);
      AddSub(c, Directions[k - 1]);
      assert DirectionRank(n.Sub(c)) == k - 1;
      var r := NeighboursUpTo(size, occ, c, k);
      assert r == s + Kept(size, occ, n);
      forall i | 0 <= i < |r|
        ensures DirectionRank(r[i].Sub(c)) < k
      {
        if i >= |s| {
          assert r[i] == n;
        }
      }
      forall i, j | 0 <= i < j < |r|
        ensures DirectionRank(r[i].Sub(c)) < DirectionRank(r[j].Sub(c))
      {
        if j >= |s| {
          assert r[i] == s[i] && r[j] == n;
        } else {
          assert r[i] == s[i] && r[j] == s[j];
        }
      }
    }
  }

  /** The neighbour list holds at most six cells, never `c` itself, exactly the available
      cells one unit axis step from `c`, each once, in the order of `Directions`. */
  lemma FreeNeighboursFacts(size: Vec3, occ: set<Vec3>, c: Vec3)
    ensures var r := FreeNeighbours(size, occ, c);
      |r| <= 6 && c !in r && Distinct(r) && RankSorted(r, c) &&
      (forall n :: n in r <==> Free(size, occ, n) && IsUnitAxis(n.Sub(c)))
  {
    NeighboursUpToOrder(size, occ, c, |Directions|);
    NeighboursUpToMembers(size, occ, c, |Directions|);
    var r := FreeNeighbours(size, occ, c);
    forall i, j | 0 <= i < j < |r| ensures r[i] != r[j] {
      assert DirectionRank(r[i].Sub(c)) < DirectionRank(r[j].Sub(c));
    }
    forall n ensures n in r <==> Free(size, occ, n) && IsUnitAxis(n.Sub(c)) {
      RankIsUnitAxis(n.Sub(c));
    }
    assert DirectionRank(c.Sub(c)) == 6;
  }

  /** The first free cell at or after the scan cursor (x, y, z), visiting z in the
      outer loop, y in the middle loop and x in the inner loop: `PickFirstFree`. */
  function FirstFreeFrom(size: Vec3, occ: set<Vec3>, x: int, y: int, z: int): Option<Vec3>
    requires 0 <= x <= size.x && 0 <= y <= size.y && 0 <= z <= size.z
    decreases size.z - z, size.y - y, size.x - x
  {
    if z == size.z then None
    else if y == size.y then FirstFreeFrom(size, occ, 0, 0, z + 1)
    else if x == size.x then FirstFreeFrom(size, occ, 0, y + 1, z)
    else if Vec3(x, y, z) !in occ then Some(Vec3(x, y, z))
    else FirstFreeFrom(size, occ, x + 1, y, z)
  }

  function FirstFree(size: Vec3, occ: set<Vec3>): Option<Vec3>
    requires size.x >= 0 && size.y >= 0 && size.z >= 0
  {
    FirstFreeFrom(size, occ, 0, 0, 0)
  }

  /** From the cursor on, the scan finds a free cell with no free cell between the cursor
      and it, or reports none and every in-bounds cell from the cursor on is reserved. */
  lemma {:induction false} FirstFreeFromSpec(size: Vec3, occ: set<Vec3>, x: int, y: int, z: int)
    requires 0 <= x <= size.x && 0 <= y <= size.y && 0 <= z <= size.z
    decreases size.z - z, size.y - y, size.x - x
    ensures match FirstFreeFrom(size, occ, x, y, z)
      case Some(c) =>
        Free(size, occ, c) && !ScanBefore(c, Vec3(x, y, z)) &&
        forall d :: InBox(d, size) && !ScanBefore(d, Vec3(x, y, z)) && ScanBefore(d, c) ==> d in occ
      case None =>
        forall d :: InBox(d, size) && !ScanBefore(d, Vec3(x, y, z)) ==> d in occ
  {
    if z == size.z {
    } else if y == size.y {
      FirstFreeFromSpec(size, occ, 0, 0, z + 1);
    } else if x == size.x {
      FirstFreeFromSpec(size, occ, 0, y + 1, z);
    } else if Vec3(x, y, z) !in occ {
    } else {
      FirstFreeFromSpec(size, occ, x + 1, y, z);
    }
  }

  /** `PickFirstFree` fails iff every cell is reserved; otherwise it yields the free cell
      that comes first in scan order. */
  lemma FirstFreeSpec(size: Vec3, occ: set<Vec3>)
    requires size.x >= 0 && size.y >= 0 && size.z >= 0
    ensures FirstFree(size, occ).None? <==> forall d :: InBox(d, size) ==> d in occ
    ensures FirstFree(size, occ).Some? ==>
      var c := FirstFree(size, occ).value;
      Free(size, occ, c) && forall d :: InBox(d, size) && ScanBefore(d, c) ==> d in occ
  {
    FirstFreeFromSpec(size, occ, 0, 0, 0);
    if FirstFree(size, occ).Some? {
      var c := FirstFree(size, occ).value;
      assert InBox(c, size) && c !in occ;
    }
  }

  /** The scan-first free cell is unique: any free cell with no free cell before it is it. */
  lemma FirstFreeUnique(size: Vec3, occ: set<Vec3>, c: Vec3)
    requires size.x >= 0 && size.y >= 0 && size.z >= 0
    requires Free(size, occ, c)
    requires forall d :: InBox(d, size) && ScanBefore(d, c) ==> d in occ
    ensures FirstFree(size, occ) == Some(c)
  {
    FirstFreeSpec(size, occ);
    var f := FirstFree(size, occ);
    assert f.Some?;
    ScanOrderTotal(f.value, c, c);
  }

  /** On an empty grid the scan starts at the origin. */
  lemma FirstFreeOfEmpty(size: Vec3)
    requires size.x >= 1 && size.y >= 1 && size.z >= 1
    ensures FirstFree(size, {}) == Some(Zero)
  {
  }

  /** The reserved cells at or after the scan cursor, in scan order: `AllOccupied`. */
  function OccupiedFrom(size: Vec3, occ: set<Vec3>, x: int, y: int, z: int): seq<Vec3>
    requires 0 <= x <= size.x && 0 <= y <= size.y && 0 <= z <= size.z
    decreases size.z - z, size.y - y, size.x - x
  {
    if z == size.z then []
    else if y == size.y then OccupiedFrom(size, occ, 0, 0, z + 1)
    else if x == size.x then OccupiedFrom(size, occ, 0, y + 1, z)
    else if Vec3(x, y, z) in occ then [Vec3(x, y, z)] + OccupiedFrom(size, occ, x + 1, y, z)
    else OccupiedFrom(size, occ, x + 1, y, z)
  }

  function AllOccupiedCells(size: Vec3, occ: set<Vec3>): seq<Vec3>
    requires size.x >= 0 && size.y >= 0 && size.z >= 0
  {
    OccupiedFrom(size, occ, 0, 0, 0)
  }

  /** From the cursor on, the listing holds exactly the reserved in-bounds cells not before
      the cursor, strictly increasing in scan order. */
  lemma {:induction false} OccupiedFromSpec(size: Vec3, occ: set<Vec3>, x: int, y: int, z: int)
    requires 0 <= x <= size.x && 0 <= y <= size.y && 0 <= z <= size.z
    decreases size.z - z, size.y - y, size.x - x
    ensures var r := OccupiedFrom(size, occ, x, y, z);
      (forall d :: d in r <==> InBox(d, size) && d in occ && !ScanBefore(d, Vec3(x, y, z))) &&
      (forall i, j :: 0 <= i < j < |r| ==> ScanBefore(r[i], r[j]))
  {
    if z == size.z {
    } else if y == size.y {
      OccupiedFromSpec(size, occ, 0, 0, z + 1);
    } else if x == size.x {
      OccupiedFromSpec(size, occ, 0, y + 1, z);
    } else {
      OccupiedFromSpec(size, occ, x + 1, y, z);
      var rest := OccupiedFrom(size, occ, x + 1, y, z);
      if Vec3(x, y, z) in occ {
        var r := [Vec3(x, y, z)] + rest;
        forall i, j | 0 <= i < j < |r| ensures ScanBefore(r[i], r[j]) {
          if i == 0 {
            assert r[j] == rest[j - 1] && r[j] in rest;
          } else {
            assert r[i] == rest[i - 1] && r[j] == rest[j - 1];
          }
        }
      }
    }
  }

  /** `AllOccupied` yields every reserved cell exactly once, in scan order, and nothing else. */
  lemma AllOccupiedSpec(size: Vec3, occ: set<Vec3>)
    requires WellFormed(size, occ)
    ensures var r := AllOccupiedCells(size, occ);
      (forall d :: d in r <==> d in occ) &&
      (forall i, j :: 0 <= i < j < |r| ==> ScanBefore(r[i], r[j])) &&
      |r| == |occ|
  {
    OccupiedFromSpec(size, occ, 0, 0, 0);
    var r := AllOccupiedCells(size, occ);
    forall i, j | 0 <= i < j < |r| ensures r[i] != r[j] {
      ScanOrderTotal(r[i], r[j], r[j]);
    }
    DistinctCardinality(r, occ);
  }

  /** A list of distinct elements has as many elements as the set of its elements. */
  lemma {:induction false} DistinctCardinality(r: seq<Vec3>, s: set<Vec3>)
    requires Distinct(r)
    requires forall d :: d in r <==> d in s
    ensures |r| == |s|
  {
    if r != [] {
      var rest := r[1..];
      forall i, j | 0 <= i < j < |rest| ensures rest[i] != rest[j] {
        assert rest[i] == r[i + 1] && rest[j] == r[j + 1];
      }
      forall d ensures d in rest <==> d in s - {r[0]} {
        if d in rest {
          var k :| 0 <= k < |rest| && rest[k] == d;
          assert r[k + 1] == d;
        }
        if d in s - {r[0]} {
          assert d in r;
          var k :| 0 <= k < |r| && r[k] == d;
          assert k != 0;
          assert rest[k - 1] == d;
        }
      }
      DistinctCardinality(rest, s - {r[0]});
    } else {
      assert forall d :: d !in s;
    }
  }

  /** Every cell of a grid of the given size. */
  function Box(size: Vec3): set<Vec3>
  {
    set x, y, z | 0 <= x < size.x && 0 <= y < size.y && 0 <= z < size.z :: Vec3(x, y, z)
  }

  lemma InBoxIffInBox(size: Vec3, c: Vec3)
    ensures c in Box(size) <==> InBox(c, size)
  {
    if InBox(c, size) {
      assert c == Vec3(c.x, c.y, c.z);
    }
  }

  /** The free cells of the grid. */
  function FreeCells(size: Vec3, occ: set<Vec3>): set<Vec3>
  {
    Box(size) - occ
  }

  /** Reserving a free cell removes exactly one free cell: the termination measure of a walk. */
  lemma OccupyShrinksFree(size: Vec3, occ: set<Vec3>, c: Vec3)
    requires Free(size, occ, c)
    ensures |FreeCells(size, OccupyIn(size, occ, c))| == |FreeCells(size, occ)| - 1
  {
    InBoxIffInBox(size, c);
    assert FreeCells(size, OccupyIn(size, occ, c)) == FreeCells(size, occ) - {c};
  }

  /** Reserving distinct free cells adds exactly that many reservations and removes exactly
      that many free cells. */
  lemma {:induction false} ReserveFreeCells(size: Vec3, occ: set<Vec3>, s: seq<Vec3>)
    requires Distinct(s)
    requires forall i :: 0 <= i < |s| ==> Free(size, occ, s[i])
    ensures |occ + CellSet(s)| == |occ| + |s|
    ensures |FreeCells(size, occ + CellSet(s))| == |FreeCells(size, occ)| - |s|
    decreases |s|
  {
    if s != [] {
      var occ' := occ + {s[0]};
      var tail := s[1..];
      forall i | 0 <= i < |tail| ensures Free(size, occ', tail[i]) {
        assert tail[i] == s[i + 1] && s[i + 1] != s[0];
      }
      forall i, j | 0 <= i < j < |tail| ensures tail[i] != tail[j] {
        assert tail[i] == s[i + 1] && tail[j] == s[j + 1];
      }
      ReserveFreeCells(size, occ', tail);
      assert occ + CellSet(s) == occ' + CellSet(tail);
      assert OccupyIn(size, occ, s[0]) == occ';
      OccupyShrinksFree(size, occ, s[0]);
    }
  }
}
