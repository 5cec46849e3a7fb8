# particlesim core, modelled in Dafny

This project models the computational core of *particlesim*. It is a Monte Carlo simulator for charged Lennard-Jones particles in a cubic periodic box. The model covers four parts:

- **Periodic neighbour index** (`neighbouring.py`). There are three variants:
  - the brute-force neighbour list (`NeighbouringPrimitiveLists`);
  - the cell-linked grid of nested lists with its 27-cell stencil (`NeighbouringCellLinkedLists`);
  - the array-based cell list that threads particles through `head` and `cell_ll` (`NeighbouringCellLinkedListsArray`).
- **System configuration** (`api.py`, `SystemConfiguration`):
  - argument validation in the constructor's own order;
  - broadcasting of scalar parameters;
  - the validating setters;
  - the Lorentz–Berthelot mixing matrices;
  - the box-versus-cutoff check.
- **Metropolis sampler** (`api.py`, `Sampler`):
  - `_update`: the trial move wrapped into the box, the acceptance rule and the rejection path;
  - the trajectories of `metropolis` and `metropolis_sa`;
  - the simulated-annealing schedule.
- **Short-range energy** (`shortrange.py`):
  - the Lennard-Jones formula;
  - the brute-force pair loop with per-pair cutoffs;
  - the neighbour-mode loop, which counts every pair twice and halves the total;
  - `get_iterations`.
- **Unit conversion** (`utils/conversion.py`): `beta_to_kelvin` and `kelvin_to_beta`.

Numbers are Dafny `real`s. Distances are carried as **squared** minimum-image norms. `sqrt(d2) < c` is written `Within(d2, c)`, that is `c > 0 && d2 < c * c`, so no square root is needed.

Python's float `%` is modelled as the floored remainder `FMod`, and `.astype(int)` as truncation `Trunc`.

The following are parameters, not definitions:

- the Coulomb kernel `erfc(d / (sqrt 2 sigma_c)) / d`;
- the unit prefactor over `4 pi`;
- `fast_distances`;
- `exp`;
- `sqrt`;
- the total potential;
- the gas constant;
- the uniform random numbers, supplied as a sequence.

The modules are:

- `Geometry`: `FMod`, minimum image, the box.
- `CellGrid`: cell counts, cell lengths, the stencil, the flat cell index.
- `NeighbourSpec`: reference definitions of the brute-force row and the grid query.
- `Neighbouring`: the brute-force and nested-list classes.
- `CellListArray`: the array class and its linked-list invariants.
- `PairSums`: row, triangle and square pair sums.
- `ShortrangeSum`: the energy and its two modes.
- `SystemConfig`: the configuration class and the construction errors.
- `Sampling`: the update, the trajectory and the schedule.
- `Conversion`: the unit conversion.
- `Errors` and `SeqFacts`: shared support.

Classes hold what the source updates in place:

- `CreateNeighbourlist`, `UpdateCells`, `UpdateNeighbourlist` and the setters change fields.
- The array variant keeps `head` and `cell_ll` as Dafny arrays.
- The loops of the source are `while` loops proved against specification functions:
  - `BruteRow` and `Query` for the neighbour index;
  - `UpperUpTo` and `QueryTotal` for the energy;
  - `Run` for the sampler.

## Model

| member | source | states |
|---|---|---|
| Geometry.FMod | particlesim/neighbouring.py:91 | Python's `%` with a positive modulus lands in `[0, m)` |
| Geometry.FModUnique | particlesim/neighbouring.py:91 | the remainder is the only value in `[0, m)` that differs from `x` by whole periods |
| Geometry.FModPeriodic | particlesim/api.py:242-243 | shifting by whole box lengths does not change the wrapped coordinate |
| Geometry.Trunc | particlesim/neighbouring.py:145 | `.astype(int)` truncates toward zero: for `x >= 0` the result `t` is non-negative with `t <= x < t + 1`, for `x < 0` it is non-positive with `t - 1 < x <= t` |
| Geometry.MinImageAxis | particlesim/neighbouring.py:91 | the axis separation `L/2 - (a - b + L/2) % L` lies in `(-L/2, L/2]` |
| Geometry.MinImageAxisDecompose | particlesim/neighbouring.py:182 | the axis separation is `b - a` plus an integer number of box lengths |
| Geometry.MinImageAxisShift | particlesim/neighbouring.py:182 | the axis separation depends only on `a - b` modulo the box |
| Geometry.MinImageDist2 | particlesim/neighbouring.py:91 | the squared periodic distance is non-negative |
| Geometry.MinImageDist2Symmetric | particlesim/neighbouring.py:91 | the periodic distance from `p` to `q` equals that from `q` to `p` |
| Geometry.MinImageComplementarySeparation | particlesim/test_shortrange.py:38-46 | a partner at `+d` along z and one at `+(L - d)` are at the same periodic distance |
| Geometry.AxisBoundedByDist2 | particlesim/neighbouring.py:182-183 | each squared axis separation is at most the squared distance |
| CellGrid.NrCells | particlesim/neighbouring.py:129 | `int(max(1, box / r))` is at least 1, and is the floor of `box / r` when that is at least 1 |
| CellGrid.CellLen | particlesim/neighbouring.py:130 | the cell length `r + (box % r) / nr_cells` is at least the radius |
| CellGrid.GridCoversBox | particlesim/neighbouring.py:129-130 | `nr_cells * cell_len` covers the box, exactly when `box >= r`; a box narrower than `r` has one cell |
| CellGrid.CellCoordInRange | particlesim/neighbouring.py:145 | every coordinate in `[0, box)` has a cell coordinate in `[0, nr_cells)` |
| CellGrid.CellOfInRange | particlesim/neighbouring.py:145-146 | every position inside the box falls into a cell of the grid |
| CellGrid.AdjacentAxis | particlesim/neighbouring.py:173-175 | two coordinates whose periodic separation is below `r` have cell coordinates one wrapped step apart at most |
| CellGrid.StencilAt | particlesim/neighbouring.py:175 | `(cell + dir) % nr_cells` is a cell of the grid |
| CellGrid.Stencil | particlesim/neighbouring.py:174-175 | the 27 visited cells all lie on the grid and are each within one wrapped step of the particle's cell on every axis, and every such cell is visited; entry `k` follows the order of `product([-1,0,1], repeat=3)` |
| CellGrid.StencilContains | particlesim/neighbouring.py:174-175 | every wrapped neighbour offset of the cell occurs in the stencil |
| CellGrid.StencilDistinct | particlesim/neighbouring.py:174-175 | with at least three cells per axis the 27 stencil cells are pairwise different |
| CellGrid.RecalcInRange | particlesim/neighbouring.py:351 | `x + y m + z m^2` maps `[0, m)^3` into `[0, m^3)` |
| CellGrid.RecalcInjective | particlesim/neighbouring.py:351 | the flat index is injective on `[0, m)^3` |
| CellGrid.RecalcSurjective | particlesim/neighbouring.py:351 | every index in `[0, m^3)` is the flat index of a cell of `[0, m)^3` |
| NeighbourSpec.BruteRow | particlesim/neighbouring.py:89-93 | the brute-force row of a particle holds only particle indices below the bound |
| NeighbourSpec.BruteRowMembers | particlesim/neighbouring.py:89-93 | `j` is in the row of `i` iff `j != i` and their periodic distance is below `r`; the row is strictly increasing |
| NeighbourSpec.BruteRowSymmetric | particlesim/neighbouring.py:89-93 | `j` is in the row of `i` iff `i` is in the row of `j` |
| NeighbourSpec.EmptyGridHoldsNone | particlesim/neighbouring.py:143 | the freshly created grid of empty lists is the grid of the first 0 particles, for any positions: the starting point of the filing loop |
| NeighbourSpec.GridPush | particlesim/neighbouring.py:146 | appending to one cell's list appends `i` there and leaves every other cell unchanged |
| NeighbourSpec.CellMembers | particlesim/neighbouring.py:144-146 | the members of a cell are particle indices below the bound |
| NeighbourSpec.CellMembersSpec | particlesim/neighbouring.py:144-146 | a cell holds exactly the particles whose position falls into it, in increasing order |
| NeighbourSpec.GridPartition | particlesim/neighbouring.py:142-147 | a grid built from all positions puts each particle into exactly one cell, the one its position gives |
| NeighbourSpec.GridHoldsEntriesBelow | particlesim/neighbouring.py:142-147 | a full grid stores only particle indices |
| NeighbourSpec.ScanCell | particlesim/neighbouring.py:180-185 | the scan of one cell list returns particle indices |
| NeighbourSpec.ScanCellMembers | particlesim/neighbouring.py:180-185 | a cell scan keeps exactly the listed particles that are another particle within `r` |
| NeighbourSpec.ScanCellIncreasing | particlesim/neighbouring.py:180-185 | scanning an increasing list yields an increasing list |
| NeighbourSpec.DistancesAppend | particlesim/neighbouring.py:184-185 | appending index and distance lists keeps every distance the periodic distance of its index |
| NeighbourSpec.ScanWithDistances | particlesim/neighbouring.py:180-185 | the inner loop returns the cell's scan with each accepted particle's squared distance beside it |
| NeighbourSpec.QueryUpTo | particlesim/neighbouring.py:177-185 | the concatenated scans of the visited stencil cells hold particle indices |
| NeighbourSpec.QueryUpToMembers | particlesim/neighbouring.py:177-185 | an index is in the query iff some visited cell lists it and it is accepted |
| NeighbourSpec.QueryUpToPrefix | particlesim/neighbouring.py:177-185 | the query over fewer stencil cells is a prefix of the query over more |
| NeighbourSpec.Query | particlesim/neighbouring.py:167-186 | the 27-cell query of a particle returns particle indices |
| NeighbourSpec.QuerySound | particlesim/neighbouring.py:182-185 | on any grid, every returned index is another particle at periodic distance below `r` |
| NeighbourSpec.StencilIndexOf | particlesim/neighbouring.py:173-175 | the cell of every neighbour is one of the 27 stencil cells of the query particle's cell |
| NeighbourSpec.AdjacentCells | particlesim/neighbouring.py:173-175 | two positions closer than `r` lie in cells whose coordinates differ by one wrapped step at most on every axis |
| NeighbourSpec.QueryMatchesBrute | particlesim/test_neighbouring.py:40-47 | with the grid built from the current positions, the grid query and the brute-force row hold the same set |
| NeighbourSpec.QueryIsPermutationOfBrute | particlesim/neighbouring.py:167-186 | with at least three cells per axis the query has no duplicates and is a permutation of the brute-force row |
| NeighbourSpec.QueryUpToNoDuplicates | particlesim/neighbouring.py:177-185 | with at least three cells per axis, the query over the first `k` cells has no duplicates and holds particles of those cells only |
| NeighbourSpec.ScanCellOfGrid | particlesim/neighbouring.py:179-185 | scanning one cell of a full grid yields duplicate-free particles of that cell |
| NeighbourSpec.SingleCellRepeats | particlesim/neighbouring.py:174-186 | with one cell per axis the query is exactly 27 copies of the scan of that one cell, so each neighbour occurs 27 times |
| NeighbourSpec.SingleCellCopies | particlesim/neighbouring.py:174-186 | while every visited cell is `(0, 0, 0)`, the first `k` stencil entries contribute `k` copies of its scan |
| NeighbourSpec.CopiesBlocks | particlesim/neighbouring.py:174-186 | `k` copies of a scan have length `k` times the scan's, and block `t` of them is the scan itself |
| NeighbourSpec.SingleCellStencil | particlesim/neighbouring.py:175 | with one cell per axis every stencil entry wraps to cell `(0, 0, 0)` |
| Neighbouring.PrimitiveLists.constructor | particlesim/neighbouring.py:75-78 | stores the arguments and builds the list for the given positions |
| Neighbouring.PrimitiveLists.CreateNeighbourlist | particlesim/neighbouring.py:83-94 | the double loop leaves, for every particle, its brute-force row in `nlist`; the positions are unchanged |
| Neighbouring.PrimitiveLists.GetParticlesWithinRadius | particlesim/neighbouring.py:97-111 | the stored row holds exactly the other particles within `r` |
| Neighbouring.CellLinkedLists.constructor | particlesim/neighbouring.py:125-132 | computes `nr_cells` and `cell_len` and builds a grid that holds every particle in its cell |
| Neighbouring.CellLinkedLists.BuildCells | particlesim/neighbouring.py:142-147 | the loop sorts every particle of the given positions into its cell, in increasing order |
| Neighbouring.CellLinkedLists.CreateNeighbourlist | particlesim/neighbouring.py:138-147 | rebuilds the grid from the stored positions and changes nothing else |
| Neighbouring.CellLinkedLists.UpdateCells | particlesim/neighbouring.py:189-204 | rebuilds the grid from `new_positions`; the stored positions, cell count and cell length stay as they were |
| Neighbouring.CellLinkedLists.SetParticlePositions | particlesim/neighbouring.py:40-45 | replaces the positions and leaves the grid as it is |
| Neighbouring.CellLinkedLists.GetParticlesWithinRadius | particlesim/neighbouring.py:150-186 | returns the grid query; every index is another particle within `r`, with its squared periodic distance beside it |
| CellListArray.ArrayCellLen | particlesim/neighbouring.py:224 | this variant's cell length `r + (box % r) / m^3` is at least the radius |
| CellListArray.CalcCellIndexNonNegative | particlesim/neighbouring.py:312-329 | a position with non-negative coordinates has a non-negative flat cell index |
| CellListArray.FlatIndexSameCell | particlesim/neighbouring.py:312-351 | for positions whose cells lie on the grid, the flat index is a slot of `head` in `[0, m^3)`, and two particles share a slot exactly when they share a cell |
| CellListArray.LastInCell | particlesim/neighbouring.py:243-247 | what `head[c]` holds after `k` pushes: the last particle below `k` in cell `c`, or -1 |
| CellListArray.MembersBelow | particlesim/neighbouring.py:265-270 | the walk from `head[c]` visits only particles pushed so far |
| CellListArray.MembersBelowSpec | particlesim/neighbouring.py:265-270 | the walk yields exactly the particles assigned to the cell, in decreasing index order |
| CellListArray.MembersBelowFromLast | particlesim/neighbouring.py:265-270 | the particles after the last member of the cell do not change the walk |
| CellListArray.WalkStep | particlesim/neighbouring.py:267-269 | taking the current particle and following `cell_ll` to the previous member of its cell continues the same walk |
| CellListArray.WalkList | particlesim/neighbouring.py:265-270 | following `cell_ll` from the cell's head until -1 collects exactly the cell's members pushed so far, newest first |
| CellListArray.LinkedEmpty | particlesim/neighbouring.py:240-241 | after both arrays are reset to -1, every cell's list is empty |
| CellListArray.LinkedPush | particlesim/neighbouring.py:244-247 | pushing particle `k` onto the front of its cell's list keeps `head`/`cell_ll` threading every cell's members |
| CellListArray.CellLinkedListsArray.constructor | particlesim/neighbouring.py:219-227 | computes the grid constants and threads every particle; the build completes iff every flat index is below `m^3` |
| CellListArray.CellLinkedListsArray.UpdateNeighbourlist | particlesim/neighbouring.py:230-247 | the arrays are reset and every particle is pushed in order; it stops with an IndexError at the first flat index off the grid |
| CellListArray.CellLinkedListsArray.GetParticlesInCell | particlesim/neighbouring.py:250-270 | the `while` walk terminates and returns exactly the cell's particles, in decreasing order |
| CellListArray.ArrayQueryUpTo | particlesim/neighbouring.py:296-307 | the query of this variant holds particle indices |
| CellListArray.ArrayQueryUpToMembers | particlesim/neighbouring.py:296-307 | an index is in the query iff it was inserted into a visited flat cell and is another particle within `r` |
| CellListArray.StencilPrefixStep | particlesim/neighbouring.py:296-299 | one more stencil cell on the grid extends the visited prefix that stays on the grid |
| CellListArray.CellLinkedListsArray.GetParticlesWithinRadius | particlesim/neighbouring.py:273-309 | succeeds iff the whole stencil is on the grid, and then returns the query with the distances of its indices |
| CellListArray.ArrayQuerySound | particlesim/neighbouring.py:301-307 | every returned index is an inserted particle other than the query particle, within `r` |
| CellListArray.ArrayStencilLeavesGrid | particlesim/neighbouring.py:294 | with two or more cells per axis, a particle in the bottom or top z-layer has stencil cells off the grid |
| CellListArray.ArrayCellLenLeavesGrid | particlesim/neighbouring.py:222-224 | box 10, radius 3: the position `(9.5, 9.5, 9.5)` gets cell coordinate 3 and flat index 39, beyond the 27 cells |
| PairSums.RowSumAppend | particlesim/shortrange.py:124 | a row sum over a concatenation is the sum of the two row sums |
| PairSums.RowSumPermutation | particlesim/shortrange.py:112-127 | reordering a neighbour row does not change its sum |
| PairSums.RowSumScale | particlesim/shortrange.py:124 | a row whose every term carries the factor `c` sums to `c` times the row |
| PairSums.RowSumCounts | particlesim/shortrange.py:169 | with every term 1 a row sum is the row's length |
| PairSums.FullIsTwiceUpper | particlesim/shortrange.py:129 | a symmetric pair function with zero diagonal summed over all ordered pairs is twice its sum over `i < j` |
| PairSums.UpperAgree | particlesim/shortrange.py:133-135 | the triangle sum reads only the pairs above the diagonal |
| PairSums.PairCount | particlesim/shortrange.py:172 | the triangle of `n` particles has `n (n - 1) / 2` pairs |
| ShortrangeSum.LjTwelveSix | particlesim/shortrange.py:72-73 | `4 eps q (q - 1)` with `q = (sigma/r)^6` is `4 eps ((sigma/r)^12 - (sigma/r)^6)` |
| ShortrangeSum.LjZeroAtSigma | particlesim/shortrange.py:72-73 | the potential is 0 at `r = sigma` |
| ShortrangeSum.LjBoundedBelow | particlesim/shortrange.py:72-73 | for a non-negative well depth the energy is never below `-eps` |
| ShortrangeSum.LjRepulsive | particlesim/shortrange.py:72-73 | closer than `sigma` the energy is positive |
| ShortrangeSum.LjAttractive | particlesim/shortrange.py:72-73 | beyond `sigma` the energy is negative |
| ShortrangeSum.LjSquaredDistance | particlesim/shortrange.py:72-73 | the formula on the squared distance `r^2` equals the formula on `r` |
| ShortrangeSum.NeighbourLjSumIsRowSum | particlesim/shortrange.py:120-127 | `lj_potential` on a particle's neighbour arrays equals the sum of its neighbour pair energies |
| ShortrangeSum.NeighbourCoulombSumIsRowSum | particlesim/shortrange.py:122-124 | `q_i * sum(q_j * kernel(d_j))` over the neighbours equals the sum of the pair terms |
| ShortrangeSum.CoulombRowStep | particlesim/shortrange.py:124 | one more neighbour adds its pair's Coulomb term to the row |
| ShortrangeSum.BruteRowSum | particlesim/neighbouring.py:89-93 | summing over the brute-force row is summing the accepted pairs of the particle |
| ShortrangeSum.QueryRowSum | particlesim/shortrange.py:114-127 | with three or more cells per axis, summing over a particle's grid query equals summing over its accepted pairs |
| ShortrangeSum.QueryTotalIsFull | particlesim/shortrange.py:112-127 | with three or more cells per axis, the neighbour-mode total is the sum of the accepted pairs over all ordered pairs |
| ShortrangeSum.QueryTotalStep | particlesim/shortrange.py:112-127 | one more particle's row keeps the neighbour total equal to the ordered-pair sum |
| ShortrangeSum.AcceptedSymmetric | particlesim/neighbouring.py:91-92 | restricting a symmetric pair function to accepted pairs keeps it symmetric with a zero diagonal |
| ShortrangeSum.LjPairsSymmetric | particlesim/api.py:217-220 | with symmetric mixing matrices the Lennard-Jones pair energy is symmetric |
| ShortrangeSum.CoulombPairsSymmetric | particlesim/shortrange.py:124 | the Coulomb pair term is symmetric |
| ShortrangeSum.QueryTotalIsTwiceUpper | particlesim/shortrange.py:112-129 | the neighbour-mode sum of a symmetric pair function counts every unordered accepted pair twice |
| ShortrangeSum.NeighbourMatchesBrute | particlesim/shortrange.py:107-154 | with three or more cells per axis, symmetric mixing and all LJ cutoffs equal to the radius, the two modes give the same energy |
| ShortrangeSum.NeighbourLjIsTwiceBrute | particlesim/shortrange.py:126-143 | the neighbour-mode Lennard-Jones total is twice the brute-force triangle |
| ShortrangeSum.NeighbourCoulombIsTwiceBrute | particlesim/shortrange.py:123-150 | the neighbour-mode Coulomb total is twice the brute-force triangle |
| ShortrangeSum.BruteLjIsAccepted | particlesim/shortrange.py:136-143 | with every cutoff equal to the radius, brute force keeps exactly the accepted Lennard-Jones pairs |
| ShortrangeSum.BruteCoulombIsAccepted | particlesim/shortrange.py:144-150 | brute force keeps exactly the Coulomb pairs within the real-space cutoff |
| ShortrangeSum.EnergiesFromTotals | particlesim/shortrange.py:129-154 | half of doubled totals gives the brute-force energy |
| ShortrangeSum.NeighbourCountIsTwicePairs | particlesim/shortrange.py:165-170 | the neighbour-mode iteration count is twice the number of unordered neighbour pairs |
| ShortrangeSum.ComplementarySeparationSameEnergy | particlesim/test_shortrange.py:32-46 | a partner at `+d` and at `+(L - d)` along one axis give the same brute-force energy |
| ShortrangeSum.BruteEnergyUpperDistances | particlesim/shortrange.py:133-153 | the brute-force energy reads only the distances above the diagonal |
| ShortrangeSum.Shortrange.constructor | particlesim/shortrange.py:25-52 | copies the configuration's parameters, zeroes the distance matrix and, in neighbour mode, builds the cell grid |
| ShortrangeSum.Shortrange.ShortrangePotential | particlesim/shortrange.py:76-154 | neighbour mode stores the positions, rebuilds the grid and returns half the neighbour total; brute force fills the distances and returns the triangle total |
| ShortrangeSum.NeighbourSums | particlesim/shortrange.py:112-127 | the neighbour loop accumulates the neighbour-mode totals of the parts that are switched on |
| ShortrangeSum.AddRow | particlesim/shortrange.py:114-127 | one particle: an empty row is skipped, otherwise the switched-on parts add the row's sums |
| ShortrangeSum.NeighbourAccStep | particlesim/shortrange.py:115-127 | adding a row's sums to the accumulators adds that row to the totals |
| ShortrangeSum.NeighbourRowStep | particlesim/shortrange.py:119-127 | the vectorised sums of one row are that row's pair sums |
| ShortrangeSum.BruteSums | particlesim/shortrange.py:133-153 | the double loop returns the triangle sums of the switched-on parts, 0 for a part that is off |
| ShortrangeSum.BruteRowSums | particlesim/shortrange.py:134-151 | the inner loop sums the pairs `(i, j)` with `i < j < n` under their cutoffs |
| ShortrangeSum.Shortrange.GetIterations | particlesim/shortrange.py:157-172 | neighbour mode counts all neighbour entries, twice the pairs once the grid is current; brute force returns `n (n - 1) / 2` |
| ShortrangeSum.CountNeighbours | particlesim/shortrange.py:165-170 | the counting loop returns the summed lengths of all neighbour rows |
| ShortrangeSum.CountStep | particlesim/shortrange.py:169 | adding a row's length to the count adds that row's count of pairs |
| ShortrangeSum.EvenPairProduct | particlesim/shortrange.py:172 | `n (n - 1)` is even, so `/ 2` is exact |
| ShortrangeSum.Shortrange.RecreateNeighbourlist | particlesim/shortrange.py:175-181 | neighbour mode builds a fresh grid over the configuration's positions; brute force changes nothing |
| SystemConfig.Broadcast | particlesim/api.py:59-72 | a scalar becomes `n` copies of itself and a list of the right length is kept |
| SystemConfig.Repeat | particlesim/api.py:60 | `[v] * n` has length `n` and every entry `v` |
| SystemConfig.SigmaMix | particlesim/api.py:219-220 | `(s_i + s_j) / 2` is symmetric, has the sigmas on its diagonal and lies between the two sigmas |
| SystemConfig.EpsilonMix | particlesim/api.py:216-217 | `sqrt(e_i e_j)` is a symmetric square matrix |
| SystemConfig.EpsilonMixDiagonal | particlesim/api.py:216-217 | with a true square root and non-negative epsilons, the diagonal of the epsilon matrix is the epsilons |
| SystemConfig.CutoffMatrix | particlesim/api.py:222-223 | every cutoff is `2.5 sigma_ij` (its symmetry, diagonal and maximum: `CutoffSymmetric`, `CutoffDiagonal`, `MaxCutoff`) |
| SystemConfig.CutoffSymmetric | particlesim/api.py:219-223 | a symmetric sigma matrix gives a symmetric cutoff matrix: a pair's cutoff does not depend on which particle comes first |
| SystemConfig.CutoffDiagonal | particlesim/api.py:219-223 | a particle's cutoff with its own kind is `2.5 sigma_i` |
| SystemConfig.MaxOf | particlesim/api.py:90 | numpy's `max`: an upper bound that occurs in the list |
| SystemConfig.MatrixMax | particlesim/api.py:90 | the largest entry of a matrix: an upper bound that occurs |
| SystemConfig.MaxCutoff | particlesim/api.py:90-93 | the largest cutoff is `2.5` times the largest sigma |
| SystemConfig.SigmaMixMax | particlesim/api.py:219-220 | the largest mixed sigma is the largest sigma |
| SystemConfig.CutoffMatrixMax | particlesim/api.py:222-223 | scaling every sigma by `2.5` scales the largest entry by `2.5` |
| SystemConfig.BoxCheckBySigma | particlesim/api.py:90-93 | the box fails the check iff it is at most five times the largest sigma |
| SystemConfig.ConstructionSucceeds | particlesim/api.py:53-95 | construction raises nothing iff the arguments are admissible |
| SystemConfig.AdmissibleNoError | particlesim/api.py:53-95 | admissible arguments raise nothing |
| SystemConfig.NoErrorAdmissible | particlesim/api.py:53-95 | arguments that raise nothing are admissible |
| SystemConfig.OutOfBoxFirst | particlesim/api.py:56-57 | a position outside `[0, box)` is reported before any other problem |
| SystemConfig.SystemConfiguration.constructor | particlesim/api.py:77-87 | stores the fields the constructor assigns without a setter |
| SystemConfig.SystemConfiguration.SetPError | particlesim/api.py:101-105 | a non-positive value raises and changes nothing; otherwise only `p_error` changes |
| SystemConfig.SystemConfiguration.SetBoxSize | particlesim/api.py:139-143 | a non-positive value raises and changes nothing; otherwise only the box size changes |
| SystemConfig.SystemConfiguration.SetXyz | particlesim/api.py:122-129 | fewer than two particles raises and changes nothing; otherwise only the positions change |
| SystemConfig.SystemConfiguration.SetCharges | particlesim/api.py:149-156 | only the charges change |
| SystemConfig.SystemConfiguration.SetSigmas | particlesim/api.py:162-167 | a negative entry raises and changes nothing; otherwise only the sigmas change |
| SystemConfig.SystemConfiguration.SetEpsilons | particlesim/api.py:173-178 | a negative entry raises and changes nothing; otherwise only the epsilons change |
| SystemConfig.SystemConfiguration.SetNeighbouring | particlesim/api.py:111-117 | only the neighbouring flag changes |
| SystemConfig.SystemConfiguration.CreateLjMeanParameters | particlesim/api.py:212-220 | only the two mixing matrices change, to those of the current sigmas and epsilons |
| SystemConfig.SystemConfiguration.CreateLennardJonesCutoff | particlesim/api.py:222-223 | only the cutoff matrix changes, to `2.5` times the sigma matrix |
| SystemConfig.SystemConfiguration.Initialise | particlesim/api.py:75-93 | runs the setters and the box check in order; the error is the first one met, and on success the state is the validated arguments with their matrices |
| SystemConfig.SystemConfiguration.Potential | particlesim/api.py:200-210 | fewer than two trial particles raises; otherwise the total potential of the trial positions |
| SystemConfig.Create | particlesim/api.py:53-95 | the error is the first one in the constructor's order; on success, a valid configuration of the broadcast arguments whose box exceeds twice the largest cutoff |
| Sampling.TrialPositions | particlesim/api.py:242-243 | every trial position `(x + 2 L step (u - 0.5)) % L` lies in the box |
| Sampling.Update | particlesim/api.py:241-247 | keeps the number of particles, consumes `3n` or `3n + 1` uniforms, and ends either in the old state or in the trial positions with their own potential |
| Sampling.UpdateRule | particlesim/api.py:241-247 | a trial with no higher potential is taken after `3n` uniforms; an uphill trial consumes `3n + 1` and is taken exactly when uniform `3n` is below `exp(beta (pot - pot_trial))`, the old positions and potential being kept otherwise |
| Sampling.Run | particlesim/api.py:284-294 | the trajectory has one entry per step plus the initial one, starting with the initial positions and potential |
| Sampling.RunPrefix | particlesim/api.py:288-294 | running the first `i` steps gives the first `i + 1` trajectory entries |
| Sampling.RunSteps | particlesim/api.py:245-247 | every entry after the first is a copy of the previous one or an accepted trial in the box with its potential |
| Sampling.RunStaysInBox | particlesim/api.py:242-243 | starting inside the box, every trajectory entry stays inside the box |
| Sampling.Sample | particlesim/api.py:288-294 | the appending loop returns exactly the trajectory of `Run` |
| Sampling.Linspace | particlesim/api.py:321 | `linspace(a, b, num)` has `num` points, from `a` to `b` inclusive |
| Sampling.LinspaceBetween | particlesim/api.py:321 | every linspace point lies between the two end points |
| Sampling.LinspaceNonDecreasing | particlesim/api.py:321 | with `a <= b` the points never decrease |
| Sampling.Schedule | particlesim/api.py:321 | the schedule has one inverse temperature per iteration |
| Sampling.ScheduleStartsAtBeta | particlesim/api.py:321 | for two or more iterations the schedule starts at `beta` |
| Sampling.ScheduleEndsAtLimit | particlesim/api.py:321 | the schedule ends at `1e15` |
| Sampling.PositiveBetaSchedule | particlesim/api.py:321 | a positive `beta` gives a defined, positive schedule |
| Sampling.ScheduleNonDecreasing | particlesim/api.py:321 | for `0 < beta <= 1e15` the inverse temperature never decreases |
| Sampling.Sampler.constructor | particlesim/api.py:236-239 | stores the configuration |
| Sampling.NewSampler | particlesim/api.py:236-239 | a configuration without particles is rejected and a validated one never is |
| Sampling.Sampler.Metropolis | particlesim/api.py:249-295 | rejects the iteration count, step and `beta` in that order, and otherwise returns the run at constant `beta` from the configuration and its potential |
| Sampling.Sampler.MetropolisSa | particlesim/api.py:297-330 | performs no validation: `beta = 0` and a negative count fail; otherwise returns the run over the annealing schedule |
| Conversion.GasFactor | particlesim/utils/conversion.py:43 | `R * 0.239006e-3` is positive for a positive gas constant |
| Conversion.Reciprocal | particlesim/utils/conversion.py:43 | a scalar zero raises ZeroDivisionError; any other value gives the number whose product with `R * 0.239006e-3 * x` is 1 |
| Conversion.ReciprocalElement | particlesim/utils/conversion.py:37-43 | an array element of zero becomes an infinity; any other gives its reciprocal |
| Conversion.ConvertCases | particlesim/utils/conversion.py:37-43 | a number fails exactly when it is zero; an empty list raises TypeError; a non-empty list or any numpy array, the empty one included, is converted element by element |
| Conversion.ReciprocalInvolutive | particlesim/utils/conversion.py:63 | the formula applied twice to a non-zero number gives the number back |
| Conversion.BetaRoundTrip | particlesim/utils/conversion.py:24-63 | `kelvin_to_beta(beta_to_kelvin(beta)) == beta` for every non-zero `beta` |
| Conversion.KelvinRoundTrip | particlesim/utils/conversion.py:24-63 | `beta_to_kelvin(kelvin_to_beta(T)) == T` for every non-zero `T` |
| Conversion.ReciprocalAntitone | particlesim/utils/conversion.py:43 | a positive input gives a positive output, and a larger one a strictly smaller output |
| Conversion.ListRoundTrip | particlesim/utils/conversion.py:37-63 | converting a non-empty list or any array of non-zero entries, then the array that comes back, gives the entries back |

## Left out

- Floating point: `float64`/`float32` rounding, infinities and NaN are not modelled; every number is an exact real.
- `erfc`, `exp`, `sqrt`, the physical prefactor over `4 pi`, `fast_distances` and the total potential: these are parameters of the operations that use them.
  - The total potential is not part of this model, and neither is the Ewald summation.
  - `SystemConfig.EpsilonMixDiagonal` assumes a true square root.
- `np.random`: the uniforms are a supplied sequence. A run requires enough of them (`Budget`, `3n + 1` per step), because Python's generator never runs out.
- Type checks that Dafny's types make unnecessary:
  - `isinstance` checks and the `ndarray` check of the positions setter (neighbouring.py:43-44);
  - the `(n, 3)` shape, since a position is a `Vec`;
  - boolean flags;
  - non-integer iteration counts.
- `beta_to_kelvin`, `kelvin_to_beta`: the `float32` cast of a non-empty list is not modelled, and neither is the sign of an infinite element (numpy gives `+inf` or `-inf`; here it is `Infinite`).
- `ShortrangeSum.LjTerm`: two coincident particles make numpy return an infinite energy; the model uses 0 there.
- `ShortrangeSum.Shortrange.ShortrangePotential`: the Lennard-Jones term of neighbour mode has no cutoff of its own; every neighbour within the Coulomb radius contributes.
  - Only the brute-force loop cuts at `lj_cutoff_matrix[i, j]` (shortrange.py:139-143), so a pair with `2.5 sigma_ij <= d < r` counts in neighbour mode only. The comparison of the two modes in test_total_potential.py:288-300 allows a relative tolerance of 0.01.
  - The two modes are proved equal when every Lennard-Jones cutoff equals the radius.
- `ShortrangeSum.Shortrange.GetIterations`: in brute-force mode Python's `/` returns a float. The model returns the integer `n (n - 1) / 2` and proves that the division is exact.
- `SystemConfig.SystemConfiguration.SetNeighbouring`: the flag is not forwarded to the short-range calculator (api.py:115), because the total-potential object that owns that calculator is not part of this model. Here a `Shortrange` takes its mode once, from the configuration.
- Default arguments are not modelled: every argument is explicit. The source's defaults are `sigmas=1.0`, `epsilons=1.0`, `charges=0.0`, `box_size=12.0`, `epsilon_r=1.0`, `labels=[]`, `p_error=10`, `neighbouring=False` (api.py:53-54), `step=0.1`, `beta=1.0` (api.py:249, 297) and `coulomb=True`, `lj=True` (shortrange.py:76).
- `Neighbouring.CellLinkedLists.constructor`: requires `r > 0` and every position inside the box, so the source's ZeroDivisionError for `r = 0` (neighbouring.py:129) is not modelled. Neither is its filing of out-of-box positions (neighbouring.py:145-146): an IndexError for a cell coordinate past the grid, and a negative coordinate filed from the far end of the lists.
- `Neighbouring.CellLinkedLists.CreateNeighbourlist`: requires the stored positions inside the box, for the same reason.
- `Neighbouring.CellLinkedLists.UpdateCells`: requires the new positions inside the box, for the same reason.
- `Neighbouring.PrimitiveLists.constructor`: requires `box > 0`. With a zero box the source's `% box_size` (neighbouring.py:91) yields NaN distances, and with a negative box it wraps into `(box, 0]`; neither is modelled.
- `CellListArray.CellLinkedListsArray.constructor`: requires `radius > 0`, `box > 0` and every position inside the box, as the class documents its positions (neighbouring.py:211-212). So the source's ZeroDivisionError at `box_size / r` for `r = 0` (neighbouring.py:222) is not modelled, nor a negative radius or box. Nor is the filing of a position with a coordinate at or below `-cell_len`: its flat index can be negative, and numpy then silently files the particle into `head` counted from the end (neighbouring.py:243-247).
- `CellListArray.CellLinkedListsArray.UpdateNeighbourlist`: requires the new positions inside the box, for the same reason. The negative-index filing of neighbouring.py:243-247 is not modelled, and neither is a position past the far side of the box, whose flat index is either past `head` (an IndexError) or the slot of another cell.
- `SystemConfig.SystemConfiguration.SetSigmas`, `SetEpsilons`, `SetBoxSize`: as in the source, they recompute neither the mixing matrices nor the volume.
- `Sampling.Sampler.MetropolisSa`: requires that no linspace point is zero. numpy would divide into an infinite inverse temperature there, which exact reals cannot represent. A positive `beta` always meets this (`Sampling.PositiveBetaSchedule`).
- `Sampling.ScheduleNonDecreasing`: proved for `0 < beta <= 1e15` only. For larger `beta` the linspace runs from `1e-15` down to `1 / beta`, and the schedule decreases.
- The `Neighbouring` base class (neighbouring.py:21-61) is modelled only through its positions setter. Its `create_neighbourlist` returns `[]`, and its query is `pass`.
- The unused stored fields `labels`, `epsilon_r`, `r_cutoff` and `k_cutoff` are stored but take part in no operation.
  - `sigma_c` enters only through the kernel.
  - The stored `lj_sigma_matrix`/`lj_epsilon_matrix` parameters of `lj_potential` are taken per pair.
- The array cell list is modelled as written for a positive radius and in-box positions. Its query stops with an IndexError result as soon as a stencil cell leaves the grid. Only its linked-list invariants and its soundness are proved; equivalence with the brute-force list is not claimed (see Findings).
- `ewald_summation.py`, `total_potential.py`, `lennard_jones.py`, file I/O (`utils/xyz.py`, `utils/config_parser.py`) and the statistical sampler test are not part of this model.

## Findings

| source | as written | input that shows it | evidently intended | confidence | as-written member | corrected member |
|---|---|---|---|---|---|---|
| particlesim/neighbouring.py:294 | the stencil wraps each cell coordinate modulo `nr_cells = m^3` | `m = 3` (box 10, radius 3), particle in z-layer 0: offset `-1` wraps to `26`, so the flat index is at least `27` and `head[...]` raises IndexError | wrap modulo the per-axis count `m` | not executed | CellListArray.ArrayStencilLeavesGrid | CellGrid.Stencil |
| particlesim/neighbouring.py:224 | the cell length divides `box % r` by `nr_cells = m^3` | box 10, radius 3: cell length `3 + 1/27`, the position `(9.5, 9.5, 9.5)` gets cell coordinate 3 and flat index 39 beyond the 27 cells | divide by the per-axis count `m`, so that `m` cells cover the box | not executed | CellListArray.ArrayCellLenLeavesGrid | CellGrid.CellCoordInRange |
