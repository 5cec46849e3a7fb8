/** The array-based cell list: particles are threaded through `head[cell]`
    (the most recently inserted particle of a cell, or -1) and
    `cellLl[particle]` (the next particle of the same cell, or -1).
    Cell length and stencil wrap use the total cell count `m^3` where the
    per-axis count `m` is meant; both are modelled as written. */
module CellListArray {
  import opened Geometry
  import opened CellGrid
  import opened SeqFacts
  import opened NeighbourSpec

  /** `r + (box % r) / nr_cells` with `nr_cells = m^3`, as this variant computes it. */
  function ArrayCellLen(box: real, r: real): (c: real)
    requires box > 0.0 && r > 0.0
    ensures c >= r
  {
    var m := NrCells(box, r);
    r + FMod(box, r) / (m * m * m) as real
  }

  /** `_calc_cell_index`: the flat index of the cell a position falls into. */
  function CalcCellIndex(p: Vec, c: real, m: int): int
    requires c > 0.0
  {
    var cell := CellOf(p, c);
    RecalcCellIndex(cell.x, cell.y, cell.z, m)
  }

  /** A position with non-negative coordinates gets a non-negative flat index. */
  lemma CalcCellIndexNonNegative(p: Vec, c: real, m: int)
    requires c > 0.0 && m >= 1 && p.x >= 0.0 && p.y >= 0.0 && p.z >= 0.0
    ensures CalcCellIndex(p, c, m) >= 0
  {
    var cell := CellOf(p, c);
    DivNonNeg(p.x, c);
    DivNonNeg(p.y, c);
    DivNonNeg(p.z, c);
    MulLeInt(0, cell.y, m);
    MulLeInt(0, cell.z, m * m);
  }

  /** The last particle below `k` assigned to cell `ci`, or -1: what `head[ci]`
      holds after the first `k` insertions. */
  function LastInCell(a: seq<int>, k: nat, ci: int): (h: int)
    requires k <= |a|
    ensures -1 <= h < k
    ensures h >= 0 ==> a[h] == ci
    ensures forall j :: h < j < k ==> a[j] != ci
  {
    if k == 0 then -1
    else if a[k - 1] == ci then k - 1
    else LastInCell(a, k - 1, ci)
  }

  /** The particles below `k` assigned to cell `ci`, most recent first: the
      order in which the linked list of the cell is walked. */
  function MembersBelow(a: seq<int>, k: nat, ci: int): (s: seq<nat>)
    requires k <= |a|
    ensures forall t :: 0 <= t < |s| ==> s[t] < k
  {
    if k == 0 then []
    else (if a[k - 1] == ci then [k - 1] else []) + MembersBelow(a, k - 1, ci)
  }

  /** The walk yields exactly the particles of the cell, in decreasing order. */
  lemma {:induction false} MembersBelowSpec(a: seq<int>, k: nat, ci: int)
    requires k <= |a|
    ensures forall j: nat :: j in MembersBelow(a, k, ci) <==> j < k && a[j] == ci
    ensures StrictlyDecreasing(MembersBelow(a, k, ci))
  {
    if k > 0 {
      MembersBelowSpec(a, k - 1, ci);
    }
  }

  /** Skipping the particles after the last member of the cell changes nothing. */
  lemma {:induction false} MembersBelowFromLast(a: seq<int>, k: nat, ci: int)
    requires k <= |a|
    ensures MembersBelow(a, k, ci) == MembersBelow(a, LastInCell(a, k, ci) + 1, ci)
  {
    if k > 0 {
      if a[k - 1] != ci {
        MembersBelowFromLast(a, k - 1, ci);
        assert LastInCell(a, k, ci) == LastInCell(a, k - 1, ci);
        assert MembersBelow(a, k, ci) == [] + MembersBelow(a, k - 1, ci) == MembersBelow(a, k - 1, ci);
      } else {
        assert LastInCell(a, k, ci) == k - 1;
      }
    }
  }

  /** What the linked-list invariant gives the walk of cell `ci`: its head is
      the cell's newest member, and every link leads to the previous member of
      the particle's own cell. */
  lemma WalkStart(a: seq<int>, k: nat, cells: nat, hs: seq<int>, ls: seq<int>, ci: int)
    requires Linked(a, k, cells, hs, ls) && 0 <= ci < cells
    ensures hs[ci] == LastInCell(a, k, ci)
    ensures forall j {:trigger ls[j]} :: 0 <= j < k ==> ls[j] == LastInCell(a, j, a[j])
  {
  }

  /** The loop of `_get_particles_in_cell`: follows the links of `next` from
      `start`, the newest member of cell `ci`, until -1, and collects the
      cell's members below `k`, newest first. */
  method WalkList(next: array<int>, ghost a: seq<int>, ghost k: nat, start: int, ci: int) returns (idxs: seq<nat>)
    requires k <= |a| && next.Length == |a| && start == LastInCell(a, k, ci)
    requires forall j {:trigger next[j]} :: 0 <= j < k ==> next[j] == LastInCell(a, j, a[j])
    ensures idxs == MembersBelow(a, k, ci)
  {
    var h := start;
    idxs := [];
    ghost var rest := MembersBelow(a, k, ci);
    MembersBelowFromLast(a, k, ci);
    while h != -1
      invariant -1 <= h < k
      invariant h >= 0 ==> a[h] == ci
      invariant rest == MembersBelow(a, h + 1, ci)
      invariant idxs + rest == MembersBelow(a, k, ci)
      decreases h + 1
    {
      WalkStep(a, k, h, ci, idxs);
      idxs := idxs + [h];
      h := next[h];
      rest := MembersBelow(a, h + 1, ci);
    }
  }

  /** One step of the walk: taking the member `h` and moving on to the
      previous member of the same cell keeps the rest of the walk intact. */
  lemma WalkStep(a: seq<int>, k: nat, h: nat, ci: int, done: seq<nat>)
    requires k <= |a| && h < k && a[h] == ci
    requires done + MembersBelow(a, h + 1, ci) == MembersBelow(a, k, ci)
    ensures (done + [h]) + MembersBelow(a, LastInCell(a, h, ci) + 1, ci) == MembersBelow(a, k, ci)
  {
    MembersBelowFromLast(a, h, ci);
    assert MembersBelow(a, h + 1, ci) == [h] + MembersBelow(a, h, ci);
    assert done + ([h] + MembersBelow(a, h, ci)) == (done + [h]) + MembersBelow(a, h, ci);
  }

  /** Flat index of the k-th stencil cell of this variant: each coordinate is
      wrapped modulo the total cell count `m^3`, then flattened with `m`. */
  function ArrayStencilIndex(cell: CellIndex, m: nat, k: int): int
    requires m >= 1
  {
    var s := StencilAt(cell, m * m * m, k);
    RecalcCellIndex(s.x, s.y, s.z, m)
  }

  /** The first `k` stencil cells of this variant stay on the grid. */
  predicate StencilPrefixOnGrid(cell: CellIndex, m: nat, k: int)
    requires m >= 1
  {
    forall k' :: 0 <= k' < k ==> ArrayStencilIndex(cell, m, k') < m * m * m
  }

  lemma StencilPrefixStep(cell: CellIndex, m: nat, k: nat)
    requires m >= 1 && StencilPrefixOnGrid(cell, m, k) && ArrayStencilIndex(cell, m, k) < m * m * m
    ensures StencilPrefixOnGrid(cell, m, k + 1)
  {
  }

  /** The stencil of this variant stays on the grid. */
  predicate StencilOnGrid(cell: CellIndex, m: nat)
    requires m >= 1
  {
    StencilPrefixOnGrid(cell, m, 27)
  }

  /** The scans of the members of the first `k` stencil cells of this
      variant, each walked newest first: what the query returns when those
      cells are all on the grid. */
  function ArrayQueryUpTo(pos: seq<Vec>, box: real, r: real, pid: nat, a: seq<int>, built: nat,
                          cell: CellIndex, m: nat, k: nat): (s: seq<nat>)
    requires box > 0.0 && pid < |pos| && m >= 1 && built <= |a| && built <= |pos| && k <= 27
    ensures forall t :: 0 <= t < |s| ==> s[t] < |pos|
  {
    if k == 0 then []
    else ArrayQueryUpTo(pos, box, r, pid, a, built, cell, m, k - 1)
         + ScanCell(pos, box, r, pid, MembersBelow(a, built, ArrayStencilIndex(cell, m, k - 1)))
  }

  /** The query holds exactly the accepted particles inserted into one of the
      first `k` stencil cells. */
  lemma {:induction false} ArrayQueryUpToMembers(pos: seq<Vec>, box: real, r: real, pid: nat, a: seq<int>,
                                                 built: nat, cell: CellIndex, m: nat, k: nat, j: nat)
    requires box > 0.0 && pid < |pos| && m >= 1 && built <= |a| && built <= |pos| && k <= 27
    ensures j in ArrayQueryUpTo(pos, box, r, pid, a, built, cell, m, k) <==>
      (j < built && Accept(pos, box, r, pid, j)
       && exists k' :: 0 <= k' < k && a[j] == ArrayStencilIndex(cell, m, k'))
  {
    if k > 0 {
      ArrayQueryUpToMembers(pos, box, r, pid, a, built, cell, m, k - 1, j);
      var ci := ArrayStencilIndex(cell, m, k - 1);
      var l := MembersBelow(a, built, ci);
      MembersBelowSpec(a, built, ci);
      ScanCellMembers(pos, box, r, pid, l);
      var prev := ArrayQueryUpTo(pos, box, r, pid, a, built, cell, m, k - 1);
      assert ArrayQueryUpTo(pos, box, r, pid, a, built, cell, m, k) == prev + ScanCell(pos, box, r, pid, l);
      if j < built {
        StencilHitSplit(a, j, cell, m, k);
      }
    }
  }

  /** Some of the first `k` stencil cells holds `a[j]` exactly when one of
      the first `k - 1` does or cell `k - 1` does. */
  lemma StencilHitSplit(a: seq<int>, j: nat, cell: CellIndex, m: nat, k: nat)
    requires j < |a| && m >= 1 && k > 0
    ensures (exists k' :: 0 <= k' < k && a[j] == ArrayStencilIndex(cell, m, k'))
        <==> (exists k' :: 0 <= k' < k - 1 && a[j] == ArrayStencilIndex(cell, m, k'))
             || a[j] == ArrayStencilIndex(cell, m, k - 1)
  {
  }

  /** Definition: the flat cell index of every position, as the build loop
      computes them one by one; its ensures only name the entries. */
  function CellIndices(xyz: seq<Vec>, c: real, m: int): (a: seq<int>)
    requires c > 0.0
    ensures |a| == |xyz|
    ensures forall i :: 0 <= i < |xyz| ==> a[i] == CalcCellIndex(xyz[i], c, m)
  {
    seq(|xyz|, i requires 0 <= i < |xyz| => CalcCellIndex(xyz[i], c, m))
  }

  /** For positions whose cells lie on the grid, the flat index is a slot of
      `head`, and two particles share a slot exactly when they share a cell. */
  lemma FlatIndexSameCell(p: Vec, q: Vec, c: real, m: int)
    requires c > 0.0 && m >= 1 && CellInRange(CellOf(p, c), m) && CellInRange(CellOf(q, c), m)
    ensures 0 <= CalcCellIndex(p, c, m) < m * m * m
    ensures CalcCellIndex(p, c, m) == CalcCellIndex(q, c, m) <==> CellOf(p, c) == CellOf(q, c)
  {
    var a, b := CellOf(p, c), CellOf(q, c);
    RecalcInRange(a.x, a.y, a.z, m);
    if CalcCellIndex(p, c, m) == CalcCellIndex(q, c, m) {
      RecalcInjective(a.x, a.y, a.z, b.x, b.y, b.z, m);
    }
  }

  /** The `head` and `next` contents `hs` and `ls` thread, after the first `k`
      insertions of the assignment `a` into `cells` cells, every cell's members
      from the newest to the oldest. */
  ghost predicate Linked(a: seq<int>, k: nat, cells: nat, hs: seq<int>, ls: seq<int>)
  {
    k <= |a| && |hs| == cells && |ls| == |a|
    && (forall j :: 0 <= j < k ==> 0 <= a[j] < cells)
    && (forall ci :: 0 <= ci < cells ==> hs[ci] == LastInCell(a, k, ci))
    && (forall j {:trigger ls[j]} :: 0 <= j < k ==> ls[j] == LastInCell(a, j, a[j]))
  }

  /** After the reset, with nothing inserted, every list is empty. */
  lemma LinkedEmpty(a: seq<int>, cells: nat, hs: seq<int>, ls: seq<int>)
    requires |hs| == cells && |ls| == |a| && forall ci :: 0 <= ci < cells ==> hs[ci] == -1
    ensures Linked(a, 0, cells, hs, ls)
  {
  }

  /** Pushing particle `k` onto the front of its cell's list keeps the lists
      threaded: it becomes the head, and its successor is the old head. */
  lemma LinkedPush(a: seq<int>, k: nat, cells: nat, hs: seq<int>, ls: seq<int>)
    requires Linked(a, k, cells, hs, ls) && k < |a| && 0 <= a[k] < cells
    ensures Linked(a, k + 1, cells, hs[a[k] := k], ls[k := hs[a[k]]])
  {
  }

  class CellLinkedListsArray {
    const n: nat
    const r: real
    const boxSize: real
    const nrCellsOneD: nat
    const nrCells: nat
    const cellLen: real
    var positions: seq<Vec>
    const head: array<int>
    const cellLl: array<int>
    /** The flat cell index of every particle of the last rebuild. */
    ghost var cellOfParticle: seq<int>
    /** How many particles the last rebuild inserted before it stopped. */
    ghost var built: nat

    /** The grid constants as the constructor computes them. */
    ghost predicate Config()
      reads this
    {
      r > 0.0 && boxSize > 0.0
      && nrCellsOneD == NrCells(boxSize, r)
      && nrCells == nrCellsOneD * nrCellsOneD * nrCellsOneD
      && cellLen == ArrayCellLen(boxSize, r)
      && |positions| == n
    }

    ghost predicate Valid()
      reads this, head, cellLl
    {
      Config()
      && head.Length == nrCells && cellLl.Length == n && head != cellLl
      && |cellOfParticle| == n
      && Linked(cellOfParticle, built, nrCells, head[..], cellLl[..])
    }

    constructor (particlePositions: seq<Vec>, box: real, radius: real)
      requires radius > 0.0 && box > 0.0 && InBox(particlePositions, box)
      ensures Valid()
      ensures positions == particlePositions && n == |particlePositions| && r == radius && boxSize == box
      ensures cellOfParticle == CellIndices(particlePositions, cellLen, nrCellsOneD)
      ensures built == n <==> forall i :: 0 <= i < n ==> cellOfParticle[i] < nrCells
    {
      positions := particlePositions;
      n := |particlePositions|;
      r := radius;
      boxSize := box;
      var m := NrCells(box, radius);
      nrCellsOneD := m;
      nrCells := m * m * m;
      cellLen := ArrayCellLen(box, radius);
      head := new int[m * m * m](_ => -1);
      cellLl := new int[|particlePositions|](_ => -1);
      cellOfParticle := [];
      built := 0;
      new;
      var ok := UpdateNeighbourlist(particlePositions);
    }

    /** `update_neighbourlist`: resets both arrays to -1, then pushes every
        particle onto the front of its cell's list. It stops with `ok == false`
        (an IndexError) at the first particle whose flat index is not a cell. */
    method UpdateNeighbourlist(xyz: seq<Vec>) returns (ok: bool)
      requires Config() && head.Length == nrCells && cellLl.Length == n && head != cellLl
      requires |xyz| == n && InBox(xyz, boxSize)
      modifies this, head, cellLl
      ensures Valid()
      ensures positions == old(positions)
      ensures cellOfParticle == CellIndices(xyz, cellLen, nrCellsOneD)
      ensures ok <==> built == n
      ensures ok <==> forall i :: 0 <= i < n ==> cellOfParticle[i] < nrCells
      ensures !ok ==> cellOfParticle[built] >= nrCells
    {
      for c := 0 to head.Length
        modifies head
        invariant forall c' :: 0 <= c' < c ==> head[c'] == -1
      {
        head[c] := -1;
      }
      for j := 0 to cellLl.Length
        modifies cellLl
        invariant forall c' :: 0 <= c' < head.Length ==> head[c'] == -1
      {
        cellLl[j] := -1;
      }
      cellOfParticle := CellIndices(xyz, cellLen, nrCellsOneD);
      built := 0;
      LinkedEmpty(cellOfParticle, nrCells, head[..], cellLl[..]);
      var i := 0;
      while i < n
        invariant 0 <= i <= n && built == i
        invariant Config() && positions == old(positions)
        invariant cellOfParticle == CellIndices(xyz, cellLen, nrCellsOneD)
        invariant Linked(cellOfParticle, built, nrCells, head[..], cellLl[..])
      {
        assert InBoxVec(xyz[i], boxSize);
        CalcCellIndexNonNegative(xyz[i], cellLen, nrCellsOneD);
        var cellIndex := CalcCellIndex(xyz[i], cellLen, nrCellsOneD);
        if cellIndex >= nrCells {
          return false;
        }
        ghost var hs, ls := head[..], cellLl[..];
        LinkedPush(cellOfParticle, i, nrCells, hs, ls);
        var oldHead := head[cellIndex];
        head[cellIndex] := i;
        cellLl[i] := oldHead;
        assert head[..] == hs[cellIndex := i] && cellLl[..] == ls[i := hs[cellIndex]];
        built := i + 1;
        i := i + 1;
      }
      return true;
    }

    /** `_get_particles_in_cell`: walks the list of cell `cellIndex` from its
        head; the walk ends and yields the cell's particles, newest first. */
    method GetParticlesInCell(cellIndex: int) returns (idxs: seq<nat>)
      requires Valid() && 0 <= cellIndex < nrCells
      ensures idxs == MembersBelow(cellOfParticle, built, cellIndex)
      ensures forall j: nat :: j in idxs <==> j < built && cellOfParticle[j] == cellIndex
      ensures StrictlyDecreasing(idxs)
    {
      WalkStart(cellOfParticle, built, nrCells, head[..], cellLl[..], cellIndex);
      idxs := WalkList(cellLl, cellOfParticle, built, head[cellIndex], cellIndex);
      MembersBelowSpec(cellOfParticle, built, cellIndex);
    }

    /** `get_particles_within_radius`: scans the stencil cells in order; fails
        (an IndexError) at the first stencil cell whose flat index is not a
        cell. On success it returns the query of the last rebuild, and every
        returned index is a different particle within the radius, with its
        squared distance. */
    method GetParticlesWithinRadius(particleId: nat) returns (ok: bool, resultIdx: seq<nat>, resultDist: seq<real>)
      requires Valid() && particleId < n
      ensures ok <==> StencilOnGrid(CellOf(positions[particleId], cellLen), nrCellsOneD)
      ensures ok ==> resultIdx == ArrayQueryUpTo(positions, boxSize, r, particleId, cellOfParticle, built,
                                                 CellOf(positions[particleId], cellLen), nrCellsOneD, 27)
      ensures |resultDist| == |resultIdx|
      ensures forall t :: 0 <= t < |resultIdx| ==>
        (resultIdx[t] < built && resultIdx[t] != particleId
         && resultDist[t] == MinImageDist2(positions[particleId], positions[resultIdx[t]], boxSize)
         && Within(resultDist[t], r))
    {
      var cell := CellOf(positions[particleId], cellLen);
      var m := nrCellsOneD;
      resultIdx, resultDist := [], [];
      var k := 0;
      while k < 27
        invariant 0 <= k <= 27
        invariant StencilPrefixOnGrid(cell, m, k)
        invariant resultIdx == ArrayQueryUpTo(positions, boxSize, r, particleId, cellOfParticle, built, cell, m, k)
        invariant DistancesOf(positions, boxSize, particleId, resultIdx, resultDist)
      {
        var cellIdxOneDim := ArrayStencilIndex(cell, m, k);
        StencilIndexNonNegative(cell, m, k);
        if cellIdxOneDim >= nrCells {
          ArrayQuerySound(positions, boxSize, r, particleId, cellOfParticle, built, cell, m, k);
          return false, resultIdx, resultDist;
        }
        StencilPrefixStep(cell, m, k);
        var cellList := GetParticlesInCell(cellIdxOneDim);
        var idx, dist := ScanWithDistances(positions, boxSize, r, particleId, cellList);
        DistancesAppend(positions, boxSize, particleId, resultIdx, resultDist, idx, dist);
        resultIdx, resultDist := resultIdx + idx, resultDist + dist;
        k := k + 1;
      }
      ArrayQuerySound(positions, boxSize, r, particleId, cellOfParticle, built, cell, m, 27);
      return true, resultIdx, resultDist;
    }
  }

  /** Every particle of the query is an inserted particle other than `pid`
      and within the radius. */
  lemma ArrayQuerySound(pos: seq<Vec>, box: real, r: real, pid: nat, a: seq<int>,
                        built: nat, cell: CellIndex, m: nat, k: nat)
    requires box > 0.0 && pid < |pos| && m >= 1 && built <= |a| && built <= |pos| && k <= 27
    ensures forall t :: 0 <= t < |ArrayQueryUpTo(pos, box, r, pid, a, built, cell, m, k)| ==>
      var j := ArrayQueryUpTo(pos, box, r, pid, a, built, cell, m, k)[t];
      j < built && j != pid && Within(MinImageDist2(pos[pid], pos[j], box), r)
  {
    var q := ArrayQueryUpTo(pos, box, r, pid, a, built, cell, m, k);
    forall t | 0 <= t < |q|
      ensures q[t] < built && q[t] != pid && Within(MinImageDist2(pos[pid], pos[q[t]], box), r)
    {
      ArrayQueryUpToMembers(pos, box, r, pid, a, built, cell, m, k, q[t]);
    }
  }

  lemma StencilIndexNonNegative(cell: CellIndex, m: nat, k: int)
    requires m >= 1
    ensures ArrayStencilIndex(cell, m, k) >= 0
  {
    var s := StencilAt(cell, m * m * m, k);
    MulLeInt(0, s.y, m);
    MulLeInt(0, s.z, m * m);
  }

  /** With two or more cells per axis, every cell on the top or bottom z-layer
      has a stencil cell off the grid, so its query fails: the z-neighbour
      `z + 1 = m` is not wrapped (the wrap is modulo `m^3`), and `z - 1 = -1`
      wraps to `m^3 - 1` instead of `m - 1`. */
  lemma ArrayStencilLeavesGrid(cell: CellIndex, m: nat)
    requires m >= 2 && CellInRange(cell, m) && (cell.z == 0 || cell.z == m - 1)
    ensures !StencilOnGrid(cell, m)
  {
    var big := m * m * m;
    CubeAboveAxis(m);
    DivModUnique(cell.x, big, 0, cell.x);
    DivModUnique(cell.y, big, 0, cell.y);
    if cell.z == m - 1 {
      DivModUnique(cell.z + 1, big, 0, m);
      var st := StencilAt(cell, big, 14);
      assert st.z == m;
      FlatIndexAboveCube(st.x, st.y, st.z, m);
      assert ArrayStencilIndex(cell, m, 14) >= big;
    } else {
      DivModUnique(cell.z - 1, big, -1, big - 1);
      var st := StencilAt(cell, big, 12);
      assert st.z == big - 1;
      FlatIndexAboveCube(st.x, st.y, st.z, m);
      assert ArrayStencilIndex(cell, m, 12) >= big;
    }
  }

  lemma CubeAboveAxis(m: nat)
    requires m >= 2
    ensures m * m * m >= 2 * m
  {
    MulLeInt(2, m, m * m);
    MulLeInt(2, m * m, m);
  }

  /** A flat index whose z-coordinate is at least `m` is at least `m^3`. */
  lemma FlatIndexAboveCube(x: int, y: int, z: int, m: nat)
    requires m >= 1 && x >= 0 && y >= 0 && z >= m
    ensures RecalcCellIndex(x, y, z, m) >= m * m * m
  {
    MulLeInt(0, y, m);
    MulLeInt(m, z, m * m);
  }

  /** With a box of 10 and a radius of 3 (three cells per axis, cell length
      3 + 1/27), a particle at (9.5, 9.5, 9.5) inside the box falls into axis
      cell 3, outside the grid, and gets flat index 39 >= 27. */
  lemma ArrayCellLenLeavesGrid()
    ensures NrCells(10.0, 3.0) == 3
    ensures InBoxVec(Vec(9.5, 9.5, 9.5), 10.0)
    ensures CellCoord(9.5, ArrayCellLen(10.0, 3.0)) == 3
    ensures CalcCellIndex(Vec(9.5, 9.5, 9.5), ArrayCellLen(10.0, 3.0), 3) == 39
  {
    assert (10.0 / 3.0).Floor == 3;
    FModUnique(10.0, 3.0, 3, 1.0);
    assert ArrayCellLen(10.0, 3.0) == 82.0 / 27.0;
    assert 9.5 / (82.0 / 27.0) == 256.5 / 82.0;
    assert (256.5 / 82.0).Floor == 3;
  }
}
