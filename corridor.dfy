/** A pipe grown along a one-cell-thick corridor: every step is forced, so the walk is fully
    determined whatever the random choices are. */
module Corridor {
  import opened Lattice
  import opened Occupancy
  import opened PipeWalk

  /** The cell at position `i` along the x axis of an n x 1 x 1 grid. */
  function Cell(i: int): Vec3 { Vec3(i, 0, 0) }

  /** The first `k` cells of the corridor. */
  function Prefix(k: int): set<Vec3>
  {
    set j | 0 <= j < k :: Cell(j)
  }

  lemma PrefixMembers(k: int, v: Vec3)
    ensures v in Prefix(k) <==> v.y == 0 && v.z == 0 && 0 <= v.x < k
  {
    if v.y == 0 && v.z == 0 && 0 <= v.x < k {
      assert v == Cell(v.x);
    }
  }

  /** The direction the walk arrived from at position `i`: none at the start, +x after. */
  function Heading(i: int): Vec3 { if i == 0 then Zero else Right }

  /** The events of a pipe that runs from position `i` straight to the last cell `n - 1`. */
  function Straight(i: nat, n: nat): seq<Event>
    requires i < n
    decreases n - i
  {
    if i + 1 == n then [Joint(Cell(i))] else [Segment(Cell(i), Right)] + Straight(i + 1, n)
  }

  /** With the first `i + 1` cells taken, position `i` can only go on to `i + 1`, and only
      when that cell exists. */
  lemma CorridorNeighbours(size: Vec3, i: nat)
    requires size.y == 1 && size.z == 1 && i < size.x
    ensures FreeNeighbours(size, Prefix(i + 1), Cell(i)) ==
      if i + 1 < size.x then [Cell(i + 1)] else []
  {
    var occ, c := Prefix(i + 1), Cell(i);
    FreeNeighboursInOrder(size, occ, c);
    assert c.Add(Right) == Cell(i + 1);
    PrefixMembers(i + 1, Cell(i + 1));
    PrefixMembers(i + 1, c.Add(Left));
    assert Kept(size, occ, c.Add(Left)) == [];
    assert Kept(size, occ, c.Add(Up)) == [];
    assert Kept(size, occ, c.Add(Down)) == [];
    assert Kept(size, occ, c.Add(Forward)) == [];
    assert Kept(size, occ, c.Add(Back)) == [];
  }

  /** The backtrack filter removes nothing along the corridor, so the candidates are the
      free neighbours. */
  lemma CorridorCandidates(size: Vec3, i: nat)
    requires size.y == 1 && size.z == 1 && i < size.x
    ensures Candidates(size, Prefix(i + 1), Cell(i), Heading(i)) ==
      if i + 1 < size.x then [Cell(i + 1)] else []
  {
    CorridorNeighbours(size, i);
    if i > 0 {
      PrefixMembers(i + 1, Cell(i).Sub(Right));
    }
    BacktrackFilterInert(size, Prefix(i + 1), Cell(i), Heading(i));
  }

  /** Reserving the next cell extends the taken prefix by one. */
  lemma PrefixGrows(size: Vec3, i: nat)
    requires size.y == 1 && size.z == 1 && i + 1 < size.x
    ensures OccupyIn(size, Prefix(i + 1), Cell(i + 1)) == Prefix(i + 2)
  {
    OccupyInside(size, Prefix(i + 1), Cell(i + 1));
    var before, after := Prefix(i + 1), Prefix(i + 2);
    forall v ensures v in after <==> v in before || v == Cell(i + 1) {
      PrefixMembers(i + 1, v);
      PrefixMembers(i + 2, v);
    }
  }

  /** One forced step along the corridor: a cylinder along +x, then the walk from the next
      position with the cells up to it taken. */
  lemma CorridorStep(size: Vec3, i: nat, maxSegments: int, pick: Oracle)
    requires ValidOracle(pick)
    requires size.y == 1 && size.z == 1 && i + 1 < size.x && i < maxSegments
    ensures Walk(size, Prefix(i + 1), Cell(i), Heading(i), i, maxSegments, pick).events ==
      [Segment(Cell(i), Right)] + Walk(size, Prefix(i + 2), Cell(i + 1), Heading(i + 1), i + 1, maxSegments, pick).events
  {
    CorridorCandidates(size, i);
    PrefixGrows(size, i);
    assert Cell(i + 1).Sub(Cell(i)) == Right;
    assert Heading(i + 1) == Right;
    WalkForced(size, Prefix(i + 1), Cell(i), Heading(i), i, maxSegments, pick,
               Cell(i + 1), Right, Prefix(i + 2));
  }

  /** From position `i`, with the cells up to `i` taken and enough segments left, the walk
      runs straight to the end of the corridor. */
  lemma {:induction false} CorridorWalk(size: Vec3, i: nat, maxSegments: int, pick: Oracle)
    requires ValidOracle(pick)
    requires size.y == 1 && size.z == 1 && i < size.x && maxSegments >= size.x - 1
    ensures Walk(size, Prefix(i + 1), Cell(i), Heading(i), i, maxSegments, pick).events ==
      Straight(i, size.x)
    decreases size.x - i
  {
    if i + 1 == size.x {
      CorridorCandidates(size, i);
      WalkStopsHere(size, Prefix(i + 1), Cell(i), Heading(i), i, maxSegments, pick);
    } else {
      CorridorStep(size, i, maxSegments, pick);
      CorridorWalk(size, i + 1, maxSegments, pick);
    }
  }

  /** Reserving the origin on an empty corridor takes the first cell. */
  lemma PrefixStarts(size: Vec3)
    requires size.x >= 1 && size.y == 1 && size.z == 1
    ensures OccupyIn(size, {}, Cell(0)) == Prefix(1)
  {
    OccupyInside(size, {}, Cell(0));
    forall v ensures v in Prefix(1) <==> v == Cell(0) {
      PrefixMembers(1, v);
    }
  }

  /** On an n x 1 x 1 grid a pipe started at the origin with room for n - 1 segments runs
      straight along +x to the far end, whatever the random choices. */
  lemma CorridorPipe(size: Vec3, maxSegments: int, pick: Oracle)
    requires ValidOracle(pick)
    requires size.x >= 1 && size.y == 1 && size.z == 1 && maxSegments >= size.x - 1
    ensures Grow(size, {}, Cell(0), maxSegments, pick).events == [Joint(Cell(0))] + Straight(0, size.x)
  {
    PrefixStarts(size);
    CorridorWalk(size, 0, maxSegments, pick);
    assert Heading(0) == Zero;
    GrowFromWalk(size, {}, Cell(0), maxSegments, pick, Prefix(1), Straight(0, size.x));
  }

  /** The worked example: on a 3 x 1 x 1 grid the only possible pipe is a sphere at the origin,
      two cylinders along +x and a sphere at (2, 0, 0). */
  lemma CorridorExample(size: Vec3, maxSegments: int, pick: Oracle)
    requires ValidOracle(pick)
    requires size.x == 3 && size.y == 1 && size.z == 1 && maxSegments >= 2
    ensures Grow(size, {}, Vec3(0, 0, 0), maxSegments, pick).events ==
      [Joint(Vec3(0, 0, 0)), Segment(Vec3(0, 0, 0), Right), Segment(Vec3(1, 0, 0), Right), Joint(Vec3(2, 0, 0))]
  {
    CorridorPipe(size, maxSegments, pick);
    var s2 := Straight(2, 3);
    var s1 := Straight(1, 3);
    var s0 := Straight(0, 3);
    assert s2 == [Joint(Cell(2))];
    assert s1 == [Segment(Cell(1), Right)] + s2;
    assert s0 == [Segment(Cell(0), Right)] + s1;
  }
}
