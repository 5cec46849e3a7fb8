/** Reference definitions of the periodic neighbour index: the brute-force
    neighbour row, the contents of a grid of cells, and the result of a
    27-cell stencil query, with the theorem that the query finds exactly the
    brute-force neighbours. */
module NeighbourSpec {
  import opened Geometry
  import opened CellGrid
  import opened SeqFacts

  /** Particle `j` counts as a neighbour of `pid`: a different particle whose
      minimum-image distance is below the radius. */
  predicate Accept(pos: seq<Vec>, box: real, r: real, pid: nat, j: nat)
    requires box > 0.0 && pid < |pos| && j < |pos|
  {
    j != pid && Within(MinImageDist2(pos[pid], pos[j], box), r)
  }

  /** The neighbours of `pid` among particles `0 .. hi-1`, in increasing order:
      the inner loop of the brute-force list. */
  function BruteRow(pos: seq<Vec>, box: real, r: real, pid: nat, hi: nat): (row: seq<nat>)
    requires box > 0.0 && pid < |pos| && hi <= |pos|
    ensures forall t :: 0 <= t < |row| ==> row[t] < hi
    decreases hi
  {
    if hi == 0 then []
    else BruteRow(pos, box, r, pid, hi - 1)
         + (if Accept(pos, box, r, pid, hi - 1) then [hi - 1] else [])
  }

  /** The brute-force row holds exactly the accepted particles, each once and in
      increasing order. */
  lemma {:induction false} BruteRowMembers(pos: seq<Vec>, box: real, r: real, pid: nat, hi: nat)
    requires box > 0.0 && pid < |pos| && hi <= |pos|
    ensures forall j: nat :: j in BruteRow(pos, box, r, pid, hi) <==> j < hi && Accept(pos, box, r, pid, j)
    ensures StrictlyIncreasing(BruteRow(pos, box, r, pid, hi))
  {
    if hi > 0 {
      BruteRowMembers(pos, box, r, pid, hi - 1);
    }
  }

  /** The neighbour relation is symmetric: `j` is in the row of `i` exactly
      when `i` is in the row of `j`. */
  lemma BruteRowSymmetric(pos: seq<Vec>, box: real, r: real, i: nat, j: nat)
    requires box > 0.0 && i < |pos| && j < |pos|
    ensures j in BruteRow(pos, box, r, i, |pos|) <==> i in BruteRow(pos, box, r, j, |pos|)
  {
    BruteRowMembers(pos, box, r, i, |pos|);
    BruteRowMembers(pos, box, r, j, |pos|);
    MinImageDist2Symmetric(pos[i], pos[j], box);
  }

  /** A grid of cell lists, indexed `[x][y][z]` as the nested Python lists. */
  type Grid = seq<seq<seq<seq<nat>>>>

  /** The grid has `m` cells along each axis. */
  predicate Shaped(g: Grid, m: nat)
  {
    |g| == m
    && (forall x :: 0 <= x < m ==> |g[x]| == m)
    && (forall x, y :: 0 <= x < m && 0 <= y < m ==> |g[x][y]| == m)
  }

  /** Every particle index stored in the grid is below `n`. */
  predicate EntriesBelow(g: Grid, m: nat, n: nat)
    requires Shaped(g, m)
  {
    forall x, y, z, t :: 0 <= x < m && 0 <= y < m && 0 <= z < m && 0 <= t < |g[x][y][z]|
      ==> g[x][y][z][t] < n
  }

  function Cell(g: Grid, m: nat, cell: CellIndex): seq<nat>
    requires Shaped(g, m) && CellInRange(cell, m)
  {
    g[cell.x][cell.y][cell.z]
  }

  /** An `m`-by-`m`-by-`m` grid of empty lists. */
  function EmptyGrid(m: nat): (g: Grid)
    ensures Shaped(g, m)
    ensures forall x, y, z :: 0 <= x < m && 0 <= y < m && 0 <= z < m ==> g[x][y][z] == []
  {
    seq(m, _ => seq(m, _ => seq(m, _ => [])))
  }

  /** The empty grid is the grid of no particle yet: for any positions and
      cell length, it holds the first 0 of them. */
  lemma EmptyGridHoldsNone(pos: seq<Vec>, c: real, m: nat)
    requires c > 0.0
    ensures GridHolds(EmptyGrid(m), pos, c, m, 0)
  {
  }

  /** Appending particle `i` to one cell's list; every other cell is unchanged. */
  function GridPush(g: Grid, m: nat, cell: CellIndex, i: nat): (g': Grid)
    requires Shaped(g, m) && CellInRange(cell, m)
    ensures Shaped(g', m)
    ensures forall x, y, z :: 0 <= x < m && 0 <= y < m && 0 <= z < m ==>
      g'[x][y][z] == if CellIndex(x, y, z) == cell then g[x][y][z] + [i] else g[x][y][z]
  {
    g[cell.x := g[cell.x][cell.y := g[cell.x][cell.y][cell.z := g[cell.x][cell.y][cell.z] + [i]]]]
  }

  /** The particles among `0 .. k-1` whose position falls into `cell`, in
      increasing order. */
  function CellMembers(pos: seq<Vec>, c: real, cell: CellIndex, k: nat): (s: seq<nat>)
    requires c > 0.0 && k <= |pos|
    ensures forall t :: 0 <= t < |s| ==> s[t] < k
  {
    if k == 0 then []
    else CellMembers(pos, c, cell, k - 1) + (if CellOf(pos[k - 1], c) == cell then [k - 1] else [])
  }

  /** A cell holds exactly the particles that fall into it, in increasing order. */
  lemma {:induction false} CellMembersSpec(pos: seq<Vec>, c: real, cell: CellIndex, k: nat)
    requires c > 0.0 && k <= |pos|
    ensures forall j: nat :: j in CellMembers(pos, c, cell, k) <==> j < k && CellOf(pos[j], c) == cell
    ensures StrictlyIncreasing(CellMembers(pos, c, cell, k))
  {
    if k > 0 {
      CellMembersSpec(pos, c, cell, k - 1);
    }
  }

  /** The grid lists, for every cell, the particles among the first `k` that
      fall into that cell. */
  predicate GridHolds(g: Grid, pos: seq<Vec>, c: real, m: nat, k: nat)
    requires c > 0.0 && k <= |pos|
  {
    Shaped(g, m)
    && forall x, y, z :: 0 <= x < m && 0 <= y < m && 0 <= z < m ==>
         g[x][y][z] == CellMembers(pos, c, CellIndex(x, y, z), k)
  }

  /** A grid built from all positions puts each particle into exactly one cell,
      the one its position falls into, and holds only particle indices. */
  lemma GridPartition(g: Grid, pos: seq<Vec>, box: real, r: real, j: nat)
    requires box > 0.0 && r > 0.0 && InBox(pos, box) && j < |pos|
    requires GridHolds(g, pos, CellLen(box, r), NrCells(box, r), |pos|)
    ensures CellInRange(CellOf(pos[j], CellLen(box, r)), NrCells(box, r))
    ensures forall x, y, z :: (0 <= x < NrCells(box, r) && 0 <= y < NrCells(box, r) && 0 <= z < NrCells(box, r)
      ==> (j in g[x][y][z] <==> CellIndex(x, y, z) == CellOf(pos[j], CellLen(box, r))))
  {
    var c := CellLen(box, r);
    var m := NrCells(box, r);
    CellOfInRange(pos[j], box, r);
    forall x, y, z | 0 <= x < m && 0 <= y < m && 0 <= z < m
      ensures j in g[x][y][z] <==> CellIndex(x, y, z) == CellOf(pos[j], c)
    {
      CellMembersSpec(pos, c, CellIndex(x, y, z), |pos|);
    }
  }

  /** A full grid holds only particle indices. */
  lemma GridHoldsEntriesBelow(g: Grid, pos: seq<Vec>, c: real, m: nat)
    requires c > 0.0 && GridHolds(g, pos, c, m, |pos|)
    ensures EntriesBelow(g, m, |pos|)
  {
  }

  /** The neighbours of `pid` in one cell list, in list order: the inner loop
      over `cell_list`. */
  function ScanCell(pos: seq<Vec>, box: real, r: real, pid: nat, l: seq<nat>): (s: seq<nat>)
    requires box > 0.0 && pid < |pos|
    requires forall t :: 0 <= t < |l| ==> l[t] < |pos|
    ensures forall t :: 0 <= t < |s| ==> s[t] < |pos|
    decreases |l|
  {
    if l == [] then []
    else ScanCell(pos, box, r, pid, l[..|l| - 1])
         + (if Accept(pos, box, r, pid, l[|l| - 1]) then [l[|l| - 1]] else [])
  }

  /** A cell scan keeps exactly the accepted members of the list. */
  lemma {:induction false} ScanCellMembers(pos: seq<Vec>, box: real, r: real, pid: nat, l: seq<nat>)
    requires box > 0.0 && pid < |pos|
    requires forall t :: 0 <= t < |l| ==> l[t] < |pos|
    ensures forall j: nat :: j in ScanCell(pos, box, r, pid, l) <==> j in l && Accept(pos, box, r, pid, j)
    decreases |l|
  {
    if l != [] {
      var init := l[..|l| - 1];
      ScanCellMembers(pos, box, r, pid, init);
      assert l == init + [l[|l| - 1]];
    }
  }

  /** Scanning a strictly increasing list yields a strictly increasing list. */
  lemma {:induction false} ScanCellIncreasing(pos: seq<Vec>, box: real, r: real, pid: nat, l: seq<nat>)
    requires box > 0.0 && pid < |pos|
    requires forall t :: 0 <= t < |l| ==> l[t] < |pos|
    requires StrictlyIncreasing(l)
    ensures StrictlyIncreasing(ScanCell(pos, box, r, pid, l))
    decreases |l|
  {
    if l != [] {
      var init := l[..|l| - 1];
      var last := l[|l| - 1];
      assert StrictlyIncreasing(init);
      ScanCellIncreasing(pos, box, r, pid, init);
      ScanCellMembers(pos, box, r, pid, init);
      var s := ScanCell(pos, box, r, pid, init);
      forall t | 0 <= t < |s| ensures s[t] < last {
        assert s[t] in init;
      }
    }
  }

  /** `dist[t]` is the squared minimum-image distance of particle `idx[t]` to `pid`. */
  predicate DistancesOf(pos: seq<Vec>, box: real, pid: nat, idx: seq<nat>, dist: seq<real>)
    requires box > 0.0 && pid < |pos|
  {
    |dist| == |idx|
    && forall t :: 0 <= t < |idx| ==> idx[t] < |pos| && dist[t] == MinImageDist2(pos[pid], pos[idx[t]], box)
  }

  /** Every listed neighbour is another particle, at a distance within `r`. */
  predicate OthersWithin(pid: nat, r: real, idx: seq<nat>, dist: seq<real>)
    requires |dist| == |idx|
  {
    forall t :: 0 <= t < |idx| ==> idx[t] != pid && Within(dist[t], r)
  }

  lemma DistancesAppend(pos: seq<Vec>, box: real, pid: nat, idx: seq<nat>, dist: seq<real>,
                        idx': seq<nat>, dist': seq<real>)
    requires box > 0.0 && pid < |pos|
    requires DistancesOf(pos, box, pid, idx, dist) && DistancesOf(pos, box, pid, idx', dist')
    ensures DistancesOf(pos, box, pid, idx + idx', dist + dist')
  {
    forall t | 0 <= t < |idx + idx'|
      ensures (idx + idx')[t] < |pos|
      ensures (dist + dist')[t] == MinImageDist2(pos[pid], pos[(idx + idx')[t]], box)
    {
      if t >= |idx| {
        assert (idx + idx')[t] == idx'[t - |idx|];
        assert (dist + dist')[t] == dist'[t - |idx|];
      }
    }
  }

  /** Scans one cell's list, keeping every accepted particle with its squared
      distance. */
  method ScanWithDistances(pos: seq<Vec>, box: real, r: real, pid: nat, l: seq<nat>)
    returns (idx: seq<nat>, dist: seq<real>)
    requires box > 0.0 && pid < |pos|
    requires forall t :: 0 <= t < |l| ==> l[t] < |pos|
    ensures idx == ScanCell(pos, box, r, pid, l)
    ensures DistancesOf(pos, box, pid, idx, dist)
  {
    idx, dist := [], [];
    var t := 0;
    while t < |l|
      invariant 0 <= t <= |l|
      invariant idx == ScanCell(pos, box, r, pid, l[..t])
      invariant DistancesOf(pos, box, pid, idx, dist)
    {
      var j := l[t];
      assert l[..t + 1][..t] == l[..t];
      var d2 := MinImageDist2(pos[pid], pos[j], box);
      if Within(d2, r) && pid != j {
        idx, dist := idx + [j], dist + [d2];
      }
      t := t + 1;
    }
    assert l[..|l|] == l;
  }

  /** The stencil cells all lie on the grid and every stored index is a particle. */
  predicate QueryReady(pos: seq<Vec>, g: Grid, m: nat, cells: seq<CellIndex>)
  {
    Shaped(g, m) && EntriesBelow(g, m, |pos|)
    && forall t :: 0 <= t < |cells| ==> CellInRange(cells[t], m)
  }

  /** The concatenated scans of the first `k` stencil cells. */
  function QueryUpTo(pos: seq<Vec>, box: real, r: real, pid: nat, g: Grid, m: nat,
                     cells: seq<CellIndex>, k: nat): (s: seq<nat>)
    requires box > 0.0 && pid < |pos| && QueryReady(pos, g, m, cells) && k <= |cells|
    ensures forall t :: 0 <= t < |s| ==> s[t] < |pos|
  {
    if k == 0 then []
    else QueryUpTo(pos, box, r, pid, g, m, cells, k - 1)
         + ScanCell(pos, box, r, pid, Cell(g, m, cells[k - 1]))
  }

  /** An index is in the query result exactly when some visited cell holds it
      and it is accepted. */
  lemma {:induction false} QueryUpToMembers(pos: seq<Vec>, box: real, r: real, pid: nat, g: Grid, m: nat,
                                            cells: seq<CellIndex>, k: nat, j: nat)
    requires box > 0.0 && pid < |pos| && QueryReady(pos, g, m, cells) && k <= |cells|
    ensures j in QueryUpTo(pos, box, r, pid, g, m, cells, k)
        <==> (exists t :: 0 <= t < k && j in Cell(g, m, cells[t])) && j < |pos| && Accept(pos, box, r, pid, j)
  {
    if k > 0 {
      QueryUpToMembers(pos, box, r, pid, g, m, cells, k - 1, j);
      ScanCellMembers(pos, box, r, pid, Cell(g, m, cells[k - 1]));
      if j in Cell(g, m, cells[k - 1]) {
        var l := Cell(g, m, cells[k - 1]);
        var t :| 0 <= t < |l| && l[t] == j;
        assert l[t] < |pos|;
      }
    }
  }

  /** The query over the 27-cell stencil around the cell of `pid`. */
  function Query(pos: seq<Vec>, box: real, r: real, pid: nat, g: Grid, m: nat, c: real): (s: seq<nat>)
    requires box > 0.0 && c > 0.0 && m >= 1 && pid < |pos| && Shaped(g, m) && EntriesBelow(g, m, |pos|)
    ensures forall t :: 0 <= t < |s| ==> s[t] < |pos|
  {
    QueryUpTo(pos, box, r, pid, g, m, Stencil(CellOf(pos[pid], c), m), 27)
  }

  /** Soundness, for any grid: every index the query returns is a different
      particle within the radius. */
  lemma QuerySound(pos: seq<Vec>, box: real, r: real, pid: nat, g: Grid, m: nat, c: real)
    requires box > 0.0 && c > 0.0 && m >= 1 && pid < |pos| && Shaped(g, m) && EntriesBelow(g, m, |pos|)
    ensures forall t :: 0 <= t < |Query(pos, box, r, pid, g, m, c)| ==>
      var j := Query(pos, box, r, pid, g, m, c)[t];
      j != pid && Within(MinImageDist2(pos[pid], pos[j], box), r)
  {
    var cells := Stencil(CellOf(pos[pid], c), m);
    var q := Query(pos, box, r, pid, g, m, c);
    forall t | 0 <= t < |q|
      ensures q[t] != pid && Within(MinImageDist2(pos[pid], pos[q[t]], box), r)
    {
      QueryUpToMembers(pos, box, r, pid, g, m, cells, 27, q[t]);
    }
  }

  /** Central theorem: with the grid built from the current positions, the
      stencil query returns the same set of particles as the brute-force row. */
  lemma QueryMatchesBrute(pos: seq<Vec>, box: real, r: real, pid: nat, g: Grid)
    requires box > 0.0 && r > 0.0 && InBox(pos, box) && pid < |pos|
    requires GridHolds(g, pos, CellLen(box, r), NrCells(box, r), |pos|)
    ensures EntriesBelow(g, NrCells(box, r), |pos|)
    ensures Elems(Query(pos, box, r, pid, g, NrCells(box, r), CellLen(box, r)))
         == Elems(BruteRow(pos, box, r, pid, |pos|))
  {
    var c := CellLen(box, r);
    var m := NrCells(box, r);
    GridHoldsEntriesBelow(g, pos, c, m);
    var cells := Stencil(CellOf(pos[pid], c), m);
    var q := Query(pos, box, r, pid, g, m, c);
    var b := BruteRow(pos, box, r, pid, |pos|);
    BruteRowMembers(pos, box, r, pid, |pos|);
    forall j: nat ensures j in q <==> j in b {
      QueryUpToMembers(pos, box, r, pid, g, m, cells, 27, j);
      if j in b {
        var k := StencilIndexOf(pos, box, r, pid, j);
        GridPartition(g, pos, box, r, j);
        assert j in Cell(g, m, cells[k]);
      }
    }
    assert Elems(q) == Elems(b);
  }

  /** The stencil entry of `pid`'s cell that is the cell of a neighbour `j`. */
  lemma StencilIndexOf(pos: seq<Vec>, box: real, r: real, pid: nat, j: nat) returns (k: nat)
    requires box > 0.0 && r > 0.0 && InBox(pos, box) && pid < |pos| && j < |pos|
    requires Within(MinImageDist2(pos[pid], pos[j], box), r)
    ensures k < 27
    ensures Stencil(CellOf(pos[pid], CellLen(box, r)), NrCells(box, r))[k] == CellOf(pos[j], CellLen(box, r))
  {
    var p := pos[pid];
    var q := pos[j];
    assert InBoxVec(p, box) && InBoxVec(q, box);
    AxesWithin(p, q, box, r);
    var dx, dy, dz := AdjacentCells(p, q, box, r);
    StencilContains(CellOf(p, CellLen(box, r)), NrCells(box, r), dx, dy, dz);
    k := (dx + 1) * 9 + (dy + 1) * 3 + (dz + 1);
  }

  /** Two positions closer than the radius lie in cells whose coordinates
      differ by -1, 0 or 1 along each axis, modulo the number of cells. */
  lemma AdjacentCells(p: Vec, q: Vec, box: real, r: real) returns (dx: int, dy: int, dz: int)
    requires box > 0.0 && r > 0.0 && InBoxVec(p, box) && InBoxVec(q, box)
    requires -r < MinImageAxis(p.x, q.x, box) < r
    requires -r < MinImageAxis(p.y, q.y, box) < r
    requires -r < MinImageAxis(p.z, q.z, box) < r
    ensures -1 <= dx <= 1 && -1 <= dy <= 1 && -1 <= dz <= 1
    ensures (CellCoord(p.x, CellLen(box, r)) + dx) % NrCells(box, r) == CellCoord(q.x, CellLen(box, r))
    ensures (CellCoord(p.y, CellLen(box, r)) + dy) % NrCells(box, r) == CellCoord(q.y, CellLen(box, r))
    ensures (CellCoord(p.z, CellLen(box, r)) + dz) % NrCells(box, r) == CellCoord(q.z, CellLen(box, r))
  {
    dx := AdjacentAxis(p.x, q.x, box, r);
    dy := AdjacentAxis(p.y, q.y, box, r);
    dz := AdjacentAxis(p.z, q.z, box, r);
  }

  /** Each axis separation of two positions closer than r is itself below r. */
  lemma AxesWithin(p: Vec, q: Vec, box: real, r: real)
    requires box > 0.0 && r > 0.0 && MinImageDist2(p, q, box) < r * r
    ensures -r < MinImageAxis(p.x, q.x, box) < r
    ensures -r < MinImageAxis(p.y, q.y, box) < r
    ensures -r < MinImageAxis(p.z, q.z, box) < r
  {
    AxisBoundedByDist2(p, q, box);
    var d2 := MinImageDist2(p, q, box);
    SquareBelowBound(MinImageAxis(p.x, q.x, box), d2, r);
    SquareBelowBound(MinImageAxis(p.y, q.y, box), d2, r);
    SquareBelowBound(MinImageAxis(p.z, q.z, box), d2, r);
  }

  lemma SquareBelowBound(f: real, d2: real, r: real)
    requires r > 0.0 && f * f <= d2 < r * r
    ensures -r < f < r
  {
    SquareBelow(f, r);
  }

  lemma LessTrans(a: real, b: real, c: real)
    requires a <= b < c
    ensures a < c
  {
  }

  /** With at least three cells per axis and a grid built from the current
      positions, the query visits every particle at most once, so it returns
      the brute-force row up to order. */
  lemma QueryIsPermutationOfBrute(pos: seq<Vec>, box: real, r: real, pid: nat, g: Grid)
    requires box > 0.0 && r > 0.0 && InBox(pos, box) && pid < |pos|
    requires GridHolds(g, pos, CellLen(box, r), NrCells(box, r), |pos|)
    requires NrCells(box, r) >= 3
    ensures EntriesBelow(g, NrCells(box, r), |pos|)
    ensures NoDuplicates(Query(pos, box, r, pid, g, NrCells(box, r), CellLen(box, r)))
    ensures multiset(Query(pos, box, r, pid, g, NrCells(box, r), CellLen(box, r)))
         == multiset(BruteRow(pos, box, r, pid, |pos|))
  {
    var c := CellLen(box, r);
    var m := NrCells(box, r);
    QueryMatchesBrute(pos, box, r, pid, g);
    var cell := CellOf(pos[pid], c);
    QueryUpToNoDuplicates(pos, box, r, pid, g, cell, 27);
    BruteRowMembers(pos, box, r, pid, |pos|);
    NoDuplicatesSameSet(Query(pos, box, r, pid, g, m, c), BruteRow(pos, box, r, pid, |pos|));
  }

  lemma {:induction false} QueryUpToNoDuplicates(pos: seq<Vec>, box: real, r: real, pid: nat, g: Grid,
                                                 cell: CellIndex, k: nat)
    requires box > 0.0 && r > 0.0 && pid < |pos| && k <= 27
    requires GridHolds(g, pos, CellLen(box, r), NrCells(box, r), |pos|)
    requires NrCells(box, r) >= 3
    ensures EntriesBelow(g, NrCells(box, r), |pos|)
    ensures NoDuplicates(QueryUpTo(pos, box, r, pid, g, NrCells(box, r), Stencil(cell, NrCells(box, r)), k))
    ensures forall j :: (j in QueryUpTo(pos, box, r, pid, g, NrCells(box, r), Stencil(cell, NrCells(box, r)), k)
      ==> exists t :: 0 <= t < k && CellOf(pos[j], CellLen(box, r)) == Stencil(cell, NrCells(box, r))[t])
  {
    var c := CellLen(box, r);
    var m := NrCells(box, r);
    GridHoldsEntriesBelow(g, pos, c, m);
    var cells := Stencil(cell, m);
    if k > 0 {
      QueryUpToNoDuplicates(pos, box, r, pid, g, cell, k - 1);
      var prev := QueryUpTo(pos, box, r, pid, g, m, cells, k - 1);
      var s := ScanCellOfGrid(pos, box, r, pid, g, cells[k - 1]);
      forall j | j in s ensures j !in prev {
        if j in prev {
          var t :| 0 <= t < k - 1 && CellOf(pos[j], c) == cells[t];
          StencilDistinct(cell, m, t, k - 1);
        }
      }
      AppendNoDuplicates(prev, s);
      assert QueryUpTo(pos, box, r, pid, g, m, cells, k) == prev + s;
    }
  }

  /** Scanning one cell of a full grid yields duplicate-free particles of that cell. */
  lemma ScanCellOfGrid(pos: seq<Vec>, box: real, r: real, pid: nat, g: Grid, cell: CellIndex)
    returns (s: seq<nat>)
    requires box > 0.0 && r > 0.0 && pid < |pos|
    requires GridHolds(g, pos, CellLen(box, r), NrCells(box, r), |pos|)
    requires CellInRange(cell, NrCells(box, r))
    ensures EntriesBelow(g, NrCells(box, r), |pos|)
    ensures s == ScanCell(pos, box, r, pid, Cell(g, NrCells(box, r), cell))
    ensures NoDuplicates(s)
    ensures forall j :: j in s ==> j < |pos| && CellOf(pos[j], CellLen(box, r)) == cell
  {
    var c := CellLen(box, r);
    var m := NrCells(box, r);
    GridHoldsEntriesBelow(g, pos, c, m);
    var l := Cell(g, m, cell);
    assert l == CellMembers(pos, c, cell, |pos|);
    s := ScanCell(pos, box, r, pid, l);
    CellMembersSpec(pos, c, cell, |pos|);
    ScanCellIncreasing(pos, box, r, pid, l);
    ScanCellMembers(pos, box, r, pid, l);
  }

  lemma AppendNoDuplicates(a: seq<nat>, b: seq<nat>)
    requires NoDuplicates(a) && NoDuplicates(b)
    requires forall j :: j in b ==> j !in a
    ensures NoDuplicates(a + b)
  {
    forall i, j | 0 <= i < j < |a + b| ensures (a + b)[i] != (a + b)[j] {
      if i < |a| && j >= |a| {
        assert (a + b)[j] == b[j - |a|];
        assert b[j - |a|] in b;
      }
    }
  }

  /** With a single cell per axis every stencil entry is that cell, so the
      query is the scan of that cell 27 times over: every neighbour occurs 27
      times. */
  lemma SingleCellRepeats(pos: seq<Vec>, box: real, r: real, pid: nat, g: Grid, c: real)
    requires box > 0.0 && c > 0.0 && pid < |pos| && Shaped(g, 1) && EntriesBelow(g, 1, |pos|)
    ensures Query(pos, box, r, pid, g, 1, c) == Copies(ScanCell(pos, box, r, pid, g[0][0][0]), 27)
  {
    var cells := Stencil(CellOf(pos[pid], c), 1);
    forall k | 0 <= k < 27 ensures cells[k] == CellIndex(0, 0, 0) {
      SingleCellStencil(CellOf(pos[pid], c), k);
    }
    SingleCellCopies(pos, box, r, pid, g, cells, 27);
  }

  /** The query over the first `k` entries of a stencil that visits only cell
      `(0, 0, 0)` is `k` copies of that cell's scan. */
  lemma {:induction false} SingleCellCopies(pos: seq<Vec>, box: real, r: real, pid: nat, g: Grid,
                                            cells: seq<CellIndex>, k: nat)
    requires box > 0.0 && pid < |pos| && QueryReady(pos, g, 1, cells) && k <= |cells|
    requires forall t :: 0 <= t < |cells| ==> cells[t] == CellIndex(0, 0, 0)
    ensures QueryUpTo(pos, box, r, pid, g, 1, cells, k) == Copies(ScanCell(pos, box, r, pid, g[0][0][0]), k)
  {
    if k > 0 {
      SingleCellCopies(pos, box, r, pid, g, cells, k - 1);
    }
  }

  /** `k` copies of `s`, one after the other. */
  function Copies(s: seq<nat>, k: nat): seq<nat>
  {
    if k == 0 then [] else Copies(s, k - 1) + s
  }

  /** `k` copies of `s` are `k` blocks of length `|s|`, each equal to `s`. */
  lemma {:induction false} CopiesBlocks(s: seq<nat>, k: nat)
    ensures |Copies(s, k)| == k * |s|
    ensures forall t :: 0 <= t < k ==> Copies(s, k)[t * |s|..(t + 1) * |s|] == s
  {
    if k > 0 {
      CopiesBlocks(s, k - 1);
      var n := |s|;
      var prev := Copies(s, k - 1);
      var q := Copies(s, k);
      MulSucc(k - 1, n);
      forall t | 0 <= t < k ensures q[t * n..(t + 1) * n] == s {
        MulSucc(t, n);
        MulLeInt(0, t, n);
        if t < k - 1 {
          MulLeInt(t + 1, k - 1, n);
          assert q[t * n..(t + 1) * n] == prev[t * n..(t + 1) * n];
        }
      }
    }
  }

  lemma MulSucc(t: int, n: int)
    ensures (t + 1) * n == t * n + n
  {
  }

  /** With one cell per axis every stencil entry wraps to that cell. */
  lemma SingleCellStencil(cell: CellIndex, k: int)
    requires 0 <= k < 27
    ensures Stencil(cell, 1)[k] == CellIndex(0, 0, 0)
  {
  }

  /** A shorter query is a prefix of a longer one. */
  lemma {:induction false} QueryUpToPrefix(pos: seq<Vec>, box: real, r: real, pid: nat, g: Grid, m: nat,
                                           cells: seq<CellIndex>, k: nat, k': nat)
    requires box > 0.0 && pid < |pos| && QueryReady(pos, g, m, cells) && k <= k' <= |cells|
    ensures var a := QueryUpTo(pos, box, r, pid, g, m, cells, k);
      var b := QueryUpTo(pos, box, r, pid, g, m, cells, k');
      |a| <= |b| && b[..|a|] == a
    decreases k' - k
  {
    if k < k' {
      QueryUpToPrefix(pos, box, r, pid, g, m, cells, k, k' - 1);
    }
  }
}
