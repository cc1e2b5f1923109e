# Sorted boundary matrix of a cubical complex

A Dafny model of `lib.py`, the core of a small persistent-homology toolkit.
A cubical complex is a list of cells. Each cell is a tuple of integer vertex
labels: a vertex is a 1-tuple `(a,)`, an edge a 2-tuple `(a, b)`. Given a
vertex filtration `f`, `sorted_boundary_matrix(k, f)` does two things:

- It ranks the cells. Vertices are visited by descending `f`. At each visited
  vertex `v`, every cell holding the label `v[0]` that has no rank yet takes
  the next rank, counting down from `len(k) - 1`. The cells are taken in
  stored order, then `v` itself.
- It builds an `N x N` matrix, `N = len(k)`. The matrix holds a 1 at
  (rank of face, rank of cell) for each cell and each face in its boundary.
  A rank lookup that finds nothing raises `KeyError`.

The model proves several things about this:

- what the ranks are;
- that the method computing them agrees with a fold that specifies them;
- that the ranks are distinct and lie in `0 .. N - 1`, and form a bijection
  onto that range when the cells are pairwise distinct and every cell holds
  some vertex's label;
- how rank order follows visiting order;
- that the fill fails exactly at the first failing lookup, and otherwise
  yields a matrix that is 1 exactly at the incidences.

Modules:

- `Seqs` (`seqs.dfy`): list comprehension as `Filter`, de-duplication in
  order of first occurrence as `Distinct`, first positions.
- `Sorting` (`sorting.dfy`): `sorted(..., key=..., reverse=True)` as a
  stable insertion sort by descending key.
- `Cells` (`cells.dfy`): cells, and `boundary`.
- `Complexes` (`complex.dfy`): `CubicalComplex` with `vertices` and
  `adjacent_cubes`.
- `Filtration` (`filtration.dfy`): the rank assignment, lines 29-39. This
  covers the specification fold `Ranks` and the two-loop method
  `AssignRanks`.
- `BoundaryMatrix` (`boundary_matrix.dfy`): the fill, lines 42-49. The
  method `FillMatrix` works on an `array2<int>`; `SortedBoundaryMatrix`
  composes the two steps.
- `Example`, `Failures` (`example.dfy`): the square at the end of `lib.py`,
  and two complexes on which the call raises `KeyError`.

`tuple(set(cube) - {x})` lists a set in an order the interpreter picks. In
CPython that order depends on the set's contents and also on how the set
was built from `cube`. The model takes the order as a parameter
`order: SetOrder`, a function of the cell and the set. It assumes only that
every set, built from any cell, is listed with each element exactly once
(`ValidOrder`). So two cells with the same set of remaining labels may list
that face differently. For example, `(1, 9, 5)` may give the face `(1, 9)`
while `(9, 1, 3)` gives `(9, 1)` (`Cells.CellDependentFaces`). Those two
tuples are different keys of `findexes`. Statements that depend on the
order hold for every such order.

Facts about `lib.py` that the model keeps:

- Cells are tuples of vertex labels. They are not tuples of coordinates, and
  no cell dimension is derived from coordinate parity.
- `adjacent_cubes(v)` keeps every cell holding the label `v[0]`, `v` included.
- `boundary` drops one label at a time. A degenerate edge `(a, a)` has the
  face `()` twice.
- The complex is not checked for closure under boundary. A cell without a
  ranked vertex, or a face that is not a cell, makes the call raise.
- A face does not always rank below its cofaces. In the square, the face
  `(2,)` of `(1, 2)` gets rank 2 and `(1, 2)` gets rank 1, so that entry
  lies below the diagonal (`Example.SquareFaceBelowDiagonal`).

## Model

| member | source | states |
|---|---|---|
| Seqs.Filter | lib.py:9-12 | a list comprehension `[x for x in s if p(x)]`: it holds exactly the elements of `s` that satisfy `p`, and is no longer than `s`; `FilterAppend` fixes its order |
| Seqs.FilterAppend | lib.py:9 | a list comprehension over `a + b` is the comprehension over `a` followed by that over `b` (order kept, duplicates kept) |
| Complexes.Complex.Vertices | lib.py:8-9 | `vertices()` holds exactly the stored cells of length 1 |
| Complexes.Complex.AdjacentCubes | lib.py:11-12 | `adjacent_cubes(v)` holds exactly the stored cells containing `v[0]`, and contains `v` when `v` is stored |
| Complexes.QueriesKeepOrder | lib.py:8-12 | both queries keep stored order: on cells `a + b` they answer the query on `a` followed by the query on `b` |
| Complexes.VerticesOfVertices | lib.py:8-9 | on a list of vertices only, `vertices()` returns the whole list |
| Cells.Boundary | lib.py:23-26 | a 1-tuple has no faces; any other cell has one face per entry |
| Cells.SingletonTuple | lib.py:26 | turning a one-element set into a tuple gives that 1-tuple, whatever the cell and the set order |
| Cells.BoundaryFaces | lib.py:26 | face `i` lists the cell's set of labels without its `i`-th label, each once |
| Cells.BoundaryOfDistinct | lib.py:23-26 | a cell of `n` distinct labels has `n` pairwise distinct faces of `n - 1` labels each |
| Cells.EdgeBoundary | lib.py:23-26 | the faces of an edge `(a, b)` with `a != b` are `(b,)` then `(a,)` |
| Cells.DegenerateEdgeBoundary | lib.py:23-26 | the faces of `(a, a)` are `()` twice |
| Cells.CellDependentFaces | lib.py:26 | there is a valid set order under which the face `{1, 9}` is `(1, 9)` for the cell `(1, 9, 5)` and `(9, 1)` for the cell `(9, 1, 3)` |
| Sorting.Insert | lib.py:31 | one insertion step of the sort adds one element and keeps the multiset |
| Sorting.InsertSorted | lib.py:31 | inserting into a non-increasing sequence keeps it non-increasing |
| Sorting.SortDescending | lib.py:31 | `sorted(..., reverse=True)` returns a permutation of its input whose keys never increase |
| Sorting.InsertStable | lib.py:31 | an insertion puts the element first among those with its key and leaves the other keys' order unchanged |
| Sorting.SortStable | lib.py:31 | the sort is stable: for every key, the elements with that key keep their input order |
| Sorting.SortMembers | lib.py:31 | the sorted result holds exactly the elements of the input |
| Filtration.VisitOrder | lib.py:29-31 | `sorted_vertices` holds exactly the vertices of `k` (same multiset), by non-increasing `f`; vertices with equal `f` keep their stored order |
| Filtration.Block | lib.py:36 | the cells examined at `v`, `k.adjacent_cubes(v) + [v]`: non-empty, ending with `v`, every other one a cell of `k` holding `v[0]`; `VisitsOne` and `VisitsStep` place it in the visits |
| Filtration.Visits | lib.py:34-36 | every cell the two loops examine, in order: at least one per vertex; `VisitsStep`, `VisitsAppend`, `VisitsContains` and `VisitsWithin` characterise it |
| Filtration.Claim | lib.py:37-39 | the claiming loop from any state: the counter never rises and drops at most once per cell examined; `ClaimFacts` (keys, earlier ranks kept) and `ClaimCount` (one drop per new key) characterise it |
| Filtration.RankFold | lib.py:32-39 | the claiming loop from an empty `findexes` and the counter `n`: the counter ends between `n - len(cs)` and `n`; `RankFoldExact` gives its closed form |
| Filtration.ClaimVertices | lib.py:34-39 | the two nested loops from any state: the counter never rises; `ClaimVerticesIsClaim` equates it with `Claim` over `Visits` |
| Filtration.Ranks | lib.py:29-39 | `findexes` and `filtration_index` after the loops: only cells of `k` are ranked and the counter is at most `len(k)`; `RanksFacts` and `RankFoldExact` characterise it, and `AssignRanks` computes it |
| Filtration.ClaimAppend | lib.py:36-39 | running the claiming loop over `a + b` is running it over `a`, then over `b` |
| Filtration.RankFoldExact | lib.py:32-39 | the `i`-th distinct cell met (first-occurrence order) gets rank `n - 1 - i`; exactly the met cells are ranked; the counter ends at `n` minus their number |
| Filtration.ClaimVerticesIsClaim | lib.py:34-39 | the two nested loops over the vertices claim the cells of the concatenated blocks in order |
| Filtration.AssignRanks | lib.py:29-39 | `findexes` and `filtration_index` equal the specification `Ranks`; only cells of `k` are ranked; ranks are distinct and lie in `filtration_index .. len(k) - 1`; the counter is `len(k)` minus the number ranked |
| Filtration.VisitVertices | lib.py:34-39 | the outer loop's state equals the fold over the vertices visited so far |
| Filtration.ClaimCells | lib.py:36-39 | the inner loop's state equals the fold over the block; the ranked cells become the old ones plus the block; old ranks stay |
| Filtration.ClaimFacts | lib.py:37-39 | claiming from any state ranks every cell met and never changes an existing rank |
| Filtration.ClaimCount | lib.py:37-39 | the counter drops by exactly one per newly ranked cell |
| Filtration.VisitsOne | lib.py:34-36 | visiting a single vertex examines exactly its block |
| Filtration.VisitsStep | lib.py:34-36 | visiting one more vertex appends its block `adjacent_cubes(v) + [v]` |
| Filtration.RanksFacts | lib.py:32-39 | for the specification: keys are cells of `k`; `0 <= next == len(k) - len(findexes)`; ranks are in range and distinct |
| Filtration.VisitsWithin | lib.py:34-36 | every cell the loops examine is a cell of `k` |
| Filtration.RankedPosition | lib.py:37-39 | a ranked cell is the `i`-th distinct cell met, and its rank is `n - 1 - i` |
| Filtration.RankFoldFacts | lib.py:37-39 | ranks are pairwise distinct and lie in `next .. n - 1`; `next == n - len(findexes)` |
| Filtration.AppendedVertexNoFresh | lib.py:36 | the `[v]` appended to a stored vertex's block never takes a new rank: `adjacent_cubes(v)` already met `v` |
| Filtration.RankOrder | lib.py:37-39 | of two cells met, the one met first holds the higher rank, and conversely |
| Filtration.EarlierMetRanksHigher | lib.py:37-39 | a cell met within the first `p` cells outranks any cell first met after them |
| Filtration.VisitsAppend | lib.py:34-36 | the cells examined over vertices `a + b` are those over `a`, then those over `b` |
| Filtration.VisitsContains | lib.py:34-36 | every cell of every visited vertex's block is examined |
| Filtration.VisitsPrefix | lib.py:34-36 | the cells examined for the first `j` vertices are a prefix of all cells examined |
| Filtration.EarlierBlockRanksHigher | lib.py:34-39 | in the fold over any visiting order, a cell met at an earlier vertex outranks a cell first met at a later vertex |
| Filtration.EarlierVertexRanksHigher | lib.py:31-39 | a cell met at an earlier vertex in `sorted_vertices` outranks every cell first claimed at a later vertex |
| Filtration.WithinBlockRanksDecrease | lib.py:36-39 | in the fold over any visiting order, the cells first claimed at one vertex rank in examination order |
| Filtration.WithinVertexRanksDecrease | lib.py:36-39 | the cells first claimed at one vertex rank in the order `adjacent_cubes(v) + [v]` lists them, and conversely |
| Filtration.RankFoldOnto | lib.py:32-39 | a fold meeting exactly `n` distinct cells ends with the counter at 0 and hands out every rank in `0 .. n - 1` |
| Filtration.VisitsAllCells | lib.py:34-36 | when each cell holds some vertex's label, the loops examine every cell of `k` |
| Filtration.RankBijection | lib.py:29-39 | for distinct cells, each holding some vertex's label: every cell is ranked, the counter ends at 0, and ranks are a bijection onto `0 .. len(k) - 1` |
| BoundaryMatrix.FirstUnranked | lib.py:46-47 | a face with no rank, or `None` exactly when every face is ranked |
| BoundaryMatrix.FirstUnrankedIsFirst | lib.py:46-47 | the face `FirstUnranked` returns is the first unranked one: every face before it is ranked |
| BoundaryMatrix.FirstFailure | lib.py:43-47 | the first failing `findexes` lookup in loop order; `None` exactly when every cell and every face is ranked; otherwise the error names a stored cell and a real failure |
| BoundaryMatrix.FirstUnrankedAfter | lib.py:46-47 | faces that are all ranked are passed over |
| BoundaryMatrix.FirstFailureAfter | lib.py:43-47 | cells whose lookups all succeed are passed over |
| BoundaryMatrix.FailureAt | lib.py:43-47 | once the cells before position `j` succeed, the cell at `j` decides: its own lookup, then its first unranked face, or success |
| BoundaryMatrix.AllRankedExtend | lib.py:43-47 | a ranked cell with ranked faces extends a run of successful lookups |
| BoundaryMatrix.FaceEntriesStep | lib.py:46-49 | setting one more face adds exactly its entry |
| BoundaryMatrix.IncidencesStep | lib.py:43-49 | filling one more cell adds exactly the entries of its faces |
| BoundaryMatrix.FillMatrix | lib.py:42-49 | a fresh `len(k) x len(k)` matrix; an error exactly when some lookup fails, and then it is the first failing one; otherwise 1 exactly at (rank of face, rank of cell) and 0 elsewhere |
| BoundaryMatrix.FillColumn | lib.py:46-49 | returns the first unranked face, if any; otherwise the column of the cell gains exactly the entries of its faces |
| BoundaryMatrix.SortedBoundaryMatrix | lib.py:28-51 | the whole call: error exactly at the first failing lookup under the ranks `Ranks(k, f)`; otherwise an `N x N` matrix with 1 exactly at the incidences under those ranks |
| BoundaryMatrix.IncidenceMeaning | lib.py:46-49 | with distinct ranks, entry (rank of `y`, rank of `x`) is 1 exactly when `y` is a face of `x` |
| BoundaryMatrix.VertexColumnZero | lib.py:24-25 | the column of a vertex is all zero |
| BoundaryMatrix.ClosedComplexFills | lib.py:42-49 | when each cell holds some vertex's label and the faces of every cell are cells, no lookup fails |
| Example.Sum | lib.py:64 | Python's `sum` of a tuple: `sum((a,)) == a` |
| Example.SumLeftToRight | lib.py:64 | `Sum` agrees with `sum`'s left-to-right accumulation: the sum of all but the last entry, plus the last entry |
| Example.Square | lib.py:53-62 | the demo complex: eight cells, each a vertex or an edge; `SquareVertices` and `SquareRanks` pin it down further |
| Example.InsertLast | lib.py:31 | an element with a smaller `sum` than all others is inserted last |
| Example.SortFour | lib.py:31 | four cells with increasing sums come out reversed |
| Example.SquareVertices | lib.py:53-62 | the square's `vertices()` are `(1,) .. (4,)` in stored order |
| Example.SquareVisitOrder | lib.py:29-31 | the square's vertices are visited `(4,), (3,), (2,), (1,)` |
| Example.SquareBlock | lib.py:11-12 | the block of `(a,)` in the square is `(a,)`, its edges, then `(a,)` |
| Example.SquareRanks | lib.py:29-39 | on the square: `(4,)`→7, `(3,4)`→6, `(4,1)`→5, `(3,)`→4, `(2,3)`→3, `(2,)`→2, `(1,2)`→1, `(1,)`→0, and the counter ends at 0 |
| Example.SquareEarlierVertex | lib.py:34-39 | when the vertices are visited `(4,), (3,), ...` with the square's blocks, `(4,)` outranks `(3,)`, by `EarlierVertexRanksHigher` |
| Example.SquareWithinVertex | lib.py:36-39 | with the same visits, `(3, 4)` outranks `(4, 1)`: both are first claimed at `(4,)`, and `(3, 4)` is examined first (`WithinVertexRanksDecrease`) |
| Example.SquareRankOrder | lib.py:29-39 | on the square, both rank-order facts hold; their preconditions are met |
| Example.SquareEdgeFaces | lib.py:23-26 | the faces of the square's edges are its vertices, dropped label first |
| Example.SquareFaceBelowDiagonal | lib.py:42-49 | the entry for face `(2,)` of `(1, 2)` is at row 2, column 1, below the diagonal |
| Example.SquareFills | lib.py:43-47 | under the square's ranks no lookup fails |
| Example.SquareMatrix | lib.py:28-51 | `sorted_boundary_matrix(cx, sum)` builds its matrix, and it holds the entry (2, 1) |
| Failures.OrphanEdgeUnranked | lib.py:29-39 | an edge whose labels belong to no vertex of the complex is never ranked |
| Failures.OrphanEdgeFails | lib.py:44 | for that complex the call raises at the cell's own lookup |
| Failures.DegenerateEdgeVisitOrder | lib.py:29-31 | on `[(1,), (1, 1)]` the only vertex visited is `(1,)` |
| Failures.DegenerateEdgeBlock | lib.py:11-12 | the block of `(1,)` there is `(1,), (1, 1), (1,)` |
| Failures.DegenerateEdgeVisits | lib.py:34-36 | the loops examine `(1,), (1, 1), (1,)` |
| Failures.DegenerateEdgeFold | lib.py:37-39 | folding over those cells from 2 ranks `(1,)` at 1 and `(1, 1)` at 0 |
| Failures.DegenerateEdgeRanks | lib.py:29-39 | for every filtration `f`, `findexes` is `{(1,): 1, (1, 1): 0}` |
| Failures.DegenerateEdgeLookups | lib.py:43-47 | under the ranks `{(1,): 1, (1, 1): 0}`, the lookups for `[(1,), (1, 1)]` first fail at the face `()` of `(1, 1)` |
| Failures.DegenerateEdgeFails | lib.py:43-47 | for every `f` and every set order, the call on `[(1,), (1, 1)]` raises at the lookup of the face `()` of `(1, 1)` |

## Left out

- The `print` calls (lines 35, 41, 45, 48) and the demo's final `print` (line 64) are output only. They are not modelled.
- `np.zeros` makes a float matrix. The model uses an `array2<int>` of zeros and ones, because only the values 0 and 1 ever occur.
- The set order: CPython's iteration order of `set(cube) - {x}` is a parameter `order`, applied to the cell and the set. The model only assumes that each set is listed with each element exactly once. It does not model CPython's hash table, so it does not say which listing CPython picks.
- `CubicalComplex.__init__`, `__iter__` and `__len__` are modelled as the datatype field `cubes`, iteration over it, and `|cubes|`.
- The filtration `f` is a pure function `Cube -> int`. The dictionary `filtration` built at line 30 only caches `f` on the vertices, so it is not modelled separately. Keys other than integers are not modelled.
- `sorted` is CPython's built-in sort. The model uses a stable insertion sort with the same result: a permutation, non-increasing keys, and equal keys in input order.
- Python's negative indexing into the matrix cannot happen. `AssignRanks` proves that every rank is in `0 .. len(k) - 1`, which `FillMatrix` requires.
- On `KeyError`, Python discards the partly filled matrix. The model returns `Err` with the failing lookup and says nothing about the partly filled matrix.
- Filtration.ClaimCells: its ensures do not state the counter. `ClaimCount` states it separately.
- BoundaryMatrix.SortedBoundaryMatrix: it states the matrix in terms of the specification `Ranks(k, f)`, not the map the method computed. `AssignRanks` proves the two are equal.
- Matrix reduction, persistence pairs, cube dimensions from coordinate parity, and the arity check belong to the wider system. None of them is in `lib.py`, so none is modelled.
