/** Integer lattice cells, the six axis directions and the grid's scan order. */
module Lattice {

  datatype Option<T> = None | Some(value: T)

  /** A lattice cell, or the displacement between two cells (Unity's Vector3Int). */
  datatype Vec3 = Vec3(x: int, y: int, z: int)
  {
    function Add(o: Vec3): Vec3 { Vec3(x + o.x, y + o.y, z + o.z) }
    function Sub(o: Vec3): Vec3 { Vec3(x - o.x, y - o.y, z - o.z) }
    function Neg(): Vec3 { Vec3(-x, -y, -z) }
  }

  const Zero := Vec3(0, 0, 0)
  const Right := Vec3(1, 0, 0)
  const Left := Vec3(-1, 0, 0)
  const Up := Vec3(0, 1, 0)
  const Down := Vec3(0, -1, 0)
  const Forward := Vec3(0, 0, 1)
  const Back := Vec3(0, 0, -1)

  /** The six unit axis vectors, in the order neighbours are enumerated: +x, -x, +y, -y, +z, -z. */
  const Directions: seq<Vec3> := [Right, Left, Up, Down, Forward, Back]

  /** No element occurs twice. */
  predicate Distinct(s: seq<Vec3>)
  {
    forall i, j :: 0 <= i < j < |s| ==> s[i] != s[j]
  }

  /** The cells of a sequence, as a set. */
  function CellSet(s: seq<Vec3>): set<Vec3>
  {
    if s == [] then {} else {s[0]} + CellSet(s[1..])
  }

  lemma {:induction false} CellSetMembers(s: seq<Vec3>)
    ensures forall d :: d in CellSet(s) <==> d in s
  {
    if s != [] {
      CellSetMembers(s[1..]);
      assert s == [s[0]] + s[1..];
    }
  }

  function Abs(n: int): nat { if n < 0 then -n else n }

  /** A displacement of one step along one axis. */
  predicate IsUnitAxis(d: Vec3)
  {
    Abs(d.x) + Abs(d.y) + Abs(d.z) == 1
  }

  /** The position of a unit axis vector in `Directions`, read off its coordinates
      (6 for any other vector). */
  function DirectionRank(d: Vec3): (r: int)
    ensures 0 <= r <= |Directions|
  {
    if d.y == 0 && d.z == 0 && d.x == 1 then 0
    else if d.y == 0 && d.z == 0 && d.x == -1 then 1
    else if d.x == 0 && d.z == 0 && d.y == 1 then 2
    else if d.x == 0 && d.z == 0 && d.y == -1 then 3
    else if d.x == 0 && d.y == 0 && d.z == 1 then 4
    else if d.x == 0 && d.y == 0 && d.z == -1 then 5
    else 6
  }

  lemma DirectionRankOf(i: int)
    requires 0 <= i < |Directions|
    ensures DirectionRank(Directions[i]) == i
  {
  }

  /** A vector of rank below 6 is the direction listed at that rank. */
  lemma RankDetermines(d: Vec3)
    requires DirectionRank(d) < |Directions|
    ensures Directions[DirectionRank(d)] == d
  {
    assert d == Vec3(d.x, d.y, d.z);
  }

  /** The vectors ranked below 6 are exactly the unit axis vectors. */
  lemma RankIsUnitAxis(d: Vec3)
    ensures DirectionRank(d) < |Directions| <==> IsUnitAxis(d)
  {
  }

  /** The six listed directions are exactly the unit axis vectors. */
  lemma DirectionsAreUnitAxis(d: Vec3)
    ensures d in Directions <==> IsUnitAxis(d)
  {
    RankIsUnitAxis(d);
    if d in Directions {
      var i :| 0 <= i < |Directions| && Directions[i] == d;
      DirectionRankOf(i);
    }
    if IsUnitAxis(d) {
      RankDetermines(d);
    }
  }

  /** One step along `d` from `c`, seen from `c`, is `d`. */
  lemma AddSub(c: Vec3, d: Vec3)
    ensures c.Add(d).Sub(c) == d
  {
  }

  /** Stepping from `c` by the displacement to `n` reaches `n`. */
  lemma SubAdd(n: Vec3, c: Vec3)
    ensures c.Add(n.Sub(c)) == n
  {
  }

  /** `n`, or 0 when `n` is negative. */
  function Max0(n: int): nat
  {
    if n > 0 then n else 0
  }

  /** `Mathf.Max(1, n)`. */
  function AtLeastOne(n: int): (r: int)
    ensures r >= 1 && r >= n
    ensures r == 1 || r == n
  {
    if n >= 1 then n else 1
  }

  /** Each dimension of a requested grid size clamped to at least 1. */
  function ClampSize(g: Vec3): (s: Vec3)
    ensures s.x >= 1 && s.y >= 1 && s.z >= 1
    ensures s.x * s.y * s.z >= 1
    ensures g.x >= 1 ==> s.x == g.x
    ensures g.y >= 1 ==> s.y == g.y
    ensures g.z >= 1 ==> s.z == g.z
    ensures g.x < 1 ==> s.x == 1
    ensures g.y < 1 ==> s.y == 1
    ensures g.z < 1 ==> s.z == 1
  {
    var s := Vec3(AtLeastOne(g.x), AtLeastOne(g.y), AtLeastOne(g.z));
    PositiveProduct(s.x, s.y, s.z);
    s
  }

  lemma PositiveProduct(a: int, b: int, c: int)
    requires a >= 1 && b >= 1 && c >= 1
    ensures a * b * c >= 1
  {
    assert a * b >= 1;
  }

  /** The cell lies in [0, size.x) x [0, size.y) x [0, size.z). */
  predicate InBox(c: Vec3, size: Vec3)
  {
    0 <= c.x < size.x && 0 <= c.y < size.y && 0 <= c.z < size.z
  }

  /** `a` is visited strictly before `b` by a scan whose outer loop runs over z,
      its middle loop over y and its inner loop over x. */
  predicate ScanBefore(a: Vec3, b: Vec3)
  {
    a.z < b.z || (a.z == b.z && (a.y < b.y || (a.y == b.y && a.x < b.x)))
  }

  /** Scan order is a strict total order on cells. */
  lemma ScanOrderTotal(a: Vec3, b: Vec3, c: Vec3)
    ensures !ScanBefore(a, a)
    ensures a == b || ScanBefore(a, b) || ScanBefore(b, a)
    ensures ScanBefore(a, b) ==> !ScanBefore(b, a)
    ensures ScanBefore(a, b) && ScanBefore(b, c) ==> ScanBefore(a, c)
  {
  }
}
