/** The three periodic neighbour indices: a brute-force neighbour list, a
    cell-linked grid of nested lists, and a cell list threaded through a
    `head` array and a `next` array. */
module Neighbouring {
  import opened Geometry
  import opened CellGrid
  import opened SeqFacts
  import opened NeighbourSpec

  /** The brute-force O(n^2) neighbour list. */
  class PrimitiveLists {
    const n: nat
    const r: real
    const boxSize: real
    var positions: seq<Vec>
    var nlist: seq<seq<nat>>

    ghost predicate Valid()
      reads this
    {
      boxSize > 0.0 && |positions| == n
    }

    /** The list holds, for every particle, its brute-force neighbour row. */
    ghost predicate Built()
      reads this
      requires Valid()
    {
      |nlist| == n
      && forall i :: 0 <= i < n ==> nlist[i] == BruteRow(positions, boxSize, r, i, n)
    }

    constructor (particlePositions: seq<Vec>, radius: real, box: real)
      requires box > 0.0
      ensures Valid() && Built()
      ensures positions == particlePositions && n == |particlePositions| && r == radius && boxSize == box
    {
      positions := particlePositions;
      n := |particlePositions|;
      r := radius;
      boxSize := box;
      nlist := [];
      new;
      CreateNeighbourlist();
    }

    /** Rebuilds the list with two nested loops over all particle pairs. */
    method CreateNeighbourlist()
      requires Valid()
      modifies this
      ensures Valid() && Built()
      ensures positions == old(positions)
    {
      var rows: seq<seq<nat>> := [];
      var i := 0;
      while i < n
        invariant 0 <= i <= n
        invariant |rows| == i
        invariant forall k :: 0 <= k < i ==> rows[k] == BruteRow(positions, boxSize, r, k, n)
      {
        var row: seq<nat> := [];
        var j := 0;
        while j < n
          invariant 0 <= j <= n
          invariant row == BruteRow(positions, boxSize, r, i, j)
        {
          if Within(MinImageDist2(positions[i], positions[j], boxSize), r) && i != j {
            row := row + [j];
          }
          j := j + 1;
        }
        rows := rows + [row];
        i := i + 1;
      }
      nlist := rows;
    }

    /** The stored row of `particleId`: once built, exactly the particles
        within the radius, in increasing order. */
    method GetParticlesWithinRadius(particleId: nat) returns (idx: seq<nat>)
      requires Valid() && Built() && particleId < n
      ensures idx == BruteRow(positions, boxSize, r, particleId, n)
      ensures forall j: nat :: j in idx <==>
        (j < n && j != particleId && Within(MinImageDist2(positions[particleId], positions[j], boxSize), r))
    {
      idx := nlist[particleId];
      BruteRowMembers(positions, boxSize, r, particleId, n);
    }
  }

  /** The cell-linked grid of nested lists `cells[x][y][z]`. */
  class CellLinkedLists {
    const n: nat
    const r: real
    const boxSize: real
    const nrCells: nat
    const cellLen: real
    var positions: seq<Vec>
    var cells: Grid

    ghost predicate Valid()
      reads this
    {
      r > 0.0 && boxSize > 0.0
      && nrCells == NrCells(boxSize, r) && cellLen == CellLen(boxSize, r)
      && |positions| == n
      && Shaped(cells, nrCells) && EntriesBelow(cells, nrCells, n)
    }

    constructor (particlePositions: seq<Vec>, radius: real, box: real)
      requires radius > 0.0 && box > 0.0 && InBox(particlePositions, box)
      ensures Valid()
      ensures positions == particlePositions && n == |particlePositions| && r == radius && boxSize == box
      ensures nrCells >= 1 && cellLen >= r
      ensures GridHolds(cells, positions, cellLen, nrCells, n)
    {
      positions := particlePositions;
      n := |particlePositions|;
      r := radius;
      boxSize := box;
      nrCells := NrCells(box, radius);
      cellLen := CellLen(box, radius);
      cells := EmptyGrid(NrCells(box, radius));
      new;
      CreateNeighbourlist();
    }

    /** Sorts every particle of `pos` into the cell its position falls into. */
    method BuildCells(pos: seq<Vec>) returns (g: Grid)
      requires Valid() && |pos| == n && InBox(pos, boxSize)
      ensures GridHolds(g, pos, cellLen, nrCells, n)
      ensures EntriesBelow(g, nrCells, n)
    {
      g := EmptyGrid(nrCells);
      var i := 0;
      while i < n
        invariant 0 <= i <= n
        invariant GridHolds(g, pos, cellLen, nrCells, i)
      {
        var cell := CellOf(pos[i], cellLen);
        CellOfInRange(pos[i], boxSize, r);
        g := GridPush(g, nrCells, cell, i);
        i := i + 1;
      }
      GridHoldsEntriesBelow(g, pos, cellLen, nrCells);
    }

    /** Rebuilds the grid from the current positions. */
    method CreateNeighbourlist()
      requires Valid() && InBox(positions, boxSize)
      modifies this
      ensures Valid()
      ensures positions == old(positions)
      ensures GridHolds(cells, positions, cellLen, nrCells, n)
    {
      cells := BuildCells(positions);
    }

    /** Rebuilds the grid from `newPositions`; the stored positions, the cell
        count and the cell length stay as they were. */
    method UpdateCells(newPositions: seq<Vec>)
      requires Valid() && |newPositions| == n && InBox(newPositions, boxSize)
      modifies this
      ensures Valid()
      ensures positions == old(positions)
      ensures GridHolds(cells, newPositions, cellLen, nrCells, n)
    {
      cells := BuildCells(newPositions);
    }

    /** The `particle_positions` setter: replaces the positions and leaves the
        grid as it is. */
    method SetParticlePositions(value: seq<Vec>)
      requires Valid() && |value| == n
      modifies this
      ensures Valid()
      ensures positions == value && cells == old(cells)
    {
      positions := value;
    }

    /** Scans the 27 stencil cells around the cell of `particleId`, returning
        the accepted indices and their squared minimum-image distances. */
    method GetParticlesWithinRadius(particleId: nat) returns (retIdx: seq<nat>, retDist: seq<real>)
      requires Valid() && particleId < n
      ensures retIdx == Query(positions, boxSize, r, particleId, cells, nrCells, cellLen)
      ensures DistancesOf(positions, boxSize, particleId, retIdx, retDist)
      ensures OthersWithin(particleId, r, retIdx, retDist)
    {
      var p := positions[particleId];
      var cell := CellOf(p, cellLen);
      var stencil := Stencil(cell, nrCells);
      retIdx, retDist := [], [];
      var k := 0;
      while k < 27
        invariant 0 <= k <= 27
        invariant retIdx == QueryUpTo(positions, boxSize, r, particleId, cells, nrCells, stencil, k)
        invariant DistancesOf(positions, boxSize, particleId, retIdx, retDist)
      {
        var cellList := Cell(cells, nrCells, stencil[k]);
        var idx, dist := ScanWithDistances(positions, boxSize, r, particleId, cellList);
        DistancesAppend(positions, boxSize, particleId, retIdx, retDist, idx, dist);
        retIdx, retDist := retIdx + idx, retDist + dist;
        k := k + 1;
      }
      QuerySound(positions, boxSize, r, particleId, cells, nrCells, cellLen);
    }
  }
}
