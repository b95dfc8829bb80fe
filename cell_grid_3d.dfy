/** `CellGrid3D`: a fixed-size 3D occupancy array, the grid the pipe generator grows in. */
module CellGrid {
  import opened Lattice
  import opened Occupancy

  class CellGrid3D {
    const Size: Vec3
    const occupied: array3<bool>
    /** The reserved cells: the abstract value of `occupied`. */
    ghost var Occ: set<Vec3>

    ghost predicate Valid()
      reads this, occupied
    {
      WellFormed(Size, Occ) &&
      occupied.Length0 == Size.x && occupied.Length1 == Size.y && occupied.Length2 == Size.z &&
      forall x, y, z {:trigger occupied[x, y, z]} :: 0 <= x < Size.x && 0 <= y < Size.y && 0 <= z < Size.z ==>
        (occupied[x, y, z] <==> Vec3(x, y, z) in Occ)
    }

    /** Each dimension is clamped to at least 1; every cell starts free. */
    constructor (gridSize: Vec3)
      ensures Valid() && fresh(occupied)
      ensures Size == ClampSize(gridSize)
      ensures Occ == {}
    {
      var s := ClampSize(gridSize);
      Size := s;
      occupied := new bool[s.x, s.y, s.z]((x, y, z) => false);
      Occ := {};
    }

    /** In bounds exactly when the cell indexes the array. */
    predicate InBounds(c: Vec3)
      requires Valid()
      reads this, occupied
      ensures InBounds(c) <==>
        0 <= c.x < occupied.Length0 && 0 <= c.y < occupied.Length1 && 0 <= c.z < occupied.Length2
    {
      c.x >= 0 && c.x < Size.x &&
      c.y >= 0 && c.y < Size.y &&
      c.z >= 0 && c.z < Size.z
    }

    /** Available: in bounds and not reserved; an out-of-bounds cell never is. */
    predicate IsAvailable(c: Vec3)
      requires Valid()
      reads this, occupied
      ensures IsAvailable(c) <==> Free(Size, Occ, c)
      ensures IsAvailable(c) ==> InBounds(c)
    {
      InBounds(c) && !occupied[c.x, c.y, c.z]
    }

    /** Reserves an in-bounds cell and changes no other; out of bounds it does nothing. */
    method Occupy(c: Vec3)
      requires Valid()
      modifies this, occupied
      ensures Valid()
      ensures Occ == OccupyIn(Size, old(Occ), c)
      ensures forall x, y, z {:trigger occupied[x, y, z]} :: 0 <= x < Size.x && 0 <= y < Size.y && 0 <= z < Size.z ==>
        occupied[x, y, z] == (old(occupied[x, y, z]) || Vec3(x, y, z) == c)
    {
      if InBounds(c) {
        occupied[c.x, c.y, c.z] := true;
        Occ := Occ + {c};
      }
    }

    /** The available axis neighbours of `c`, in the order +x, -x, +y, -y, +z, -z. */
    method AvailableNeighbouringCell(c: Vec3) returns (r: seq<Vec3>)
      requires Valid()
      ensures r == FreeNeighbours(Size, Occ, c)
    {
      r := [];
      r := YieldIfAvailable(r, c.Add(Right));
      assert r == NeighboursUpTo(Size, Occ, c, 1);
      r := YieldIfAvailable(r, c.Add(Left));
      assert r == NeighboursUpTo(Size, Occ, c, 2);
      r := YieldIfAvailable(r, c.Add(Up));
      assert r == NeighboursUpTo(Size, Occ, c, 3);
      r := YieldIfAvailable(r, c.Add(Down));
      assert r == NeighboursUpTo(Size, Occ, c, 4);
      r := YieldIfAvailable(r, c.Add(Forward));
      assert r == NeighboursUpTo(Size, Occ, c, 5);
      r := YieldIfAvailable(r, c.Add(Back));
      assert r == NeighboursUpTo(Size, Occ, c, 6);
    }

    /** One line of the enumeration: `nextcell` is yielded when it is available. */
    method YieldIfAvailable(r: seq<Vec3>, nextcell: Vec3) returns (r': seq<Vec3>)
      requires Valid()
      ensures r' == r + Kept(Size, Occ, nextcell)
    {
      r' := r;
      if IsAvailable(nextcell) {
        r' := r' + [nextcell];
      }
    }

    /** Every reserved cell, each once, in z, then y, then x scan order. */
    method AllOccupied() returns (r: seq<Vec3>)
      requires Valid()
      ensures r == AllOccupiedCells(Size, Occ)
      ensures forall d :: d in r <==> d in Occ
      ensures forall i, j :: 0 <= i < j < |r| ==> ScanBefore(r[i], r[j])
    {
      r := [];
      var z := 0;
      while z < Size.z
        invariant 0 <= z <= Size.z
        invariant r + OccupiedFrom(Size, Occ, 0, 0, z) == AllOccupiedCells(Size, Occ)
      {
        var y := 0;
        while y < Size.y
          invariant 0 <= y <= Size.y
          invariant r + OccupiedFrom(Size, Occ, 0, y, z) == AllOccupiedCells(Size, Occ)
        {
          var x := 0;
          while x < Size.x
            invariant 0 <= x <= Size.x
            invariant r + OccupiedFrom(Size, Occ, x, y, z) == AllOccupiedCells(Size, Occ)
          {
            if occupied[x, y, z] {
              r := r + [Vec3(x, y, z)];
            }
            x := x + 1;
          }
          y := y + 1;
        }
        z := z + 1;
      }
      AllOccupiedSpec(Size, Occ);
    }

    /** The first free cell in z, then y, then x scan order, or `false` on a full grid. */
    method PickFirstFree() returns (found: bool, cell: Vec3)
      requires Valid()
      ensures FirstFree(Size, Occ) == if found then Some(cell) else None
      ensures found ==> IsAvailable(cell)
      ensures found ==> forall d :: InBounds(d) && ScanBefore(d, cell) ==> d in Occ
      ensures !found <==> forall d :: InBounds(d) ==> d in Occ
      ensures !found ==> cell == Zero
    {
      var z := 0;
      while z < Size.z
        invariant 0 <= z <= Size.z
        invariant FirstFreeFrom(Size, Occ, 0, 0, z) == FirstFree(Size, Occ)
      {
        var y := 0;
        while y < Size.y
          invariant 0 <= y <= Size.y
          invariant FirstFreeFrom(Size, Occ, 0, y, z) == FirstFree(Size, Occ)
        {
          var x := 0;
          while x < Size.x
            invariant 0 <= x <= Size.x
            invariant FirstFreeFrom(Size, Occ, x, y, z) == FirstFree(Size, Occ)
          {
            if !occupied[x, y, z] {
              found, cell := true, Vec3(x, y, z);
              FirstFreeSpec(Size, Occ);
              return;
            }
            x := x + 1;
          }
          y := y + 1;
        }
        z := z + 1;
      }
      found, cell := false, Zero;
      FirstFreeSpec(Size, Occ);
    }

    /** Frees every cell; the next scan then starts at the origin. */
    method Clear()
      requires Valid()
      modifies this, occupied
      ensures Valid() && Occ == {}
      ensures FirstFree(Size, Occ) == Some(Zero)
    {
      var z := 0;
      while z < Size.z
        invariant 0 <= z <= Size.z
        invariant forall a, b, c :: 0 <= a < Size.x && 0 <= b < Size.y && 0 <= c < z ==> !occupied[a, b, c]
      {
        var y := 0;
        while y < Size.y
          invariant 0 <= y <= Size.y
          invariant forall a, b, c ::
            (0 <= a < Size.x && 0 <= b < Size.y && 0 <= c < Size.z && (c < z || (c == z && b < y)))
            ==> !occupied[a, b, c]
        {
          var x := 0;
          while x < Size.x
            invariant 0 <= x <= Size.x
            invariant forall a, b, c ::
              (0 <= a < Size.x && 0 <= b < Size.y && 0 <= c < Size.z &&
               (c < z || (c == z && (b < y || (b == y && a < x)))))
              ==> !occupied[a, b, c]
          {
            occupied[x, y, z] := false;
            x := x + 1;
          }
          y := y + 1;
        }
        z := z + 1;
      }
      Occ := {};
      FirstFreeOfEmpty(Size);
    }
  }

}
