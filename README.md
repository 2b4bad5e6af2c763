# Border-grain elimination of the TP1 grain analysis

The TP1 program reads a binary image of grains, splits its foreground into
4-connected components (digital objects), removes every grain that touches the
border of the image domain, and traces and segments the boundary of the first
grain that remains. Almost all of this is done by DGtal library calls. This
project models the part the program computes itself:

- the **border test** run on each component: a grain is a border grain when one
  of its points has `x` equal to the domain's lower or upper `x` bound, or `y`
  equal to the lower or upper `y` bound. The test visits the point set one point
  at a time and stops at the first border point (`BorderElimination.IsBorderGrain`,
  a loop over the set, proved equal to the predicate `TouchesBorder`);
- the **erase/remove_if idiom** on the vector of components: the survivors are
  moved, in order, to the front of the buffer and the vector is truncated to
  them (`BorderElimination.ComponentVector`, with a buffer `array` and a size).
  The methods are proved against the specification function `Interior`, the
  order-preserving filter by "does not touch the border". The lemmas about
  `Interior` give the properties of the elimination: no survivor touches a
  border line, a grain is removed exactly when it touches one, the order and
  the grains themselves are kept, the two reported counts differ by the number
  of border grains, and a second elimination removes nothing;
- the **margin of the cell space**: the Khalimsky space in which a boundary is
  traced spans the domain grown by one unit on every side
  (`Geometry.KSpaceBounds`). Every point of the domain, and so every point of a
  surviving grain, lies strictly inside it. A surviving grain whose points lie
  in the domain even lies strictly inside the domain itself;
- the **choice of the first survivor** (`objects[0]`), which the program makes
  without checking that a survivor exists. The model returns an explicit
  `EmptyResult` instead (see Findings).

Modules: `Geometry` (points, domains, border lines, cell-space bounds),
`BorderElimination` (grains, the border test, the filter and the vector),
`Analysis` (the counts, the first survivor and the run from the components to
the input of the boundary tracer).

## Model

| member | source | states |
|---|---|---|
| `Geometry.KSpaceBounds` | TP1/main.cpp:25-26 | the open box of the margin-extended bounds holds exactly the points of the image domain: no point of the domain, and so no point of an object, lies on the border of the traced space |
| `Geometry.OnBorder` | TP1/main.cpp:79-82 | the four-way border test; a point of the domain is off all four border lines exactly when it lies strictly between the bounds on both axes |
| `Geometry.DomainInsideKSpace` | TP1/main.cpp:25-26 | every point of the image domain lies strictly inside the margin-extended bounds and on none of their border lines |
| `BorderElimination.TouchesBorder` | TP1/main.cpp:78-85 | the answer of the border test for a grain: an empty grain never touches the border, and the domain points of a grain that does not touch it lie strictly inside the domain |
| `BorderElimination.IsBorderGrain` | TP1/main.cpp:76-86 | the loop over the point set answers true exactly when some point of the grain lies on a border line, and false only when none does |
| `BorderElimination.Interior` | TP1/main.cpp:75-86 | the grains left by the erase/remove_if elimination: no more than before, each from the input, and none with a point on any of the four border lines |
| `BorderElimination.InteriorAppend` | TP1/main.cpp:75-86 | eliminating from a concatenation is the concatenation of the eliminations: survivors keep their relative order |
| `BorderElimination.InteriorSnoc` | TP1/main.cpp:75-86 | one more grain at the end survives exactly when it does not touch the border, and lands after all earlier survivors |
| `BorderElimination.InteriorMultiset` | TP1/main.cpp:75-86 | a grain is in the result exactly when it is in the input and touches no border line; a survivor occurs as often as in the input and a border grain not at all |
| `BorderElimination.InteriorCount` | TP1/main.cpp:72-87 | the count reported before the elimination equals the count reported after it plus the number of border grains |
| `BorderElimination.InteriorIdempotent` | TP1/main.cpp:75-86 | eliminating again removes nothing, and no border grain is left |
| `BorderElimination.InteriorOfClean` | TP1/main.cpp:75-86 | when no grain touches the border the vector is unchanged |
| `BorderElimination.InteriorOfAllBorder` | TP1/main.cpp:75-86 | when every grain touches the border nothing survives |
| `BorderElimination.InteriorHead` | TP1/main.cpp:75-89 | the first survivor is the first grain of the input that touches no border line, and all grains before it touch one |
| `BorderElimination.ComponentVector.FromComponents` | TP1/main.cpp:67-71 | the vector holds the extracted components in the order they were inserted |
| `BorderElimination.ComponentVector.Size` | TP1/main.cpp:72 | the size is the number of elements of the vector |
| `BorderElimination.ComponentVector.RemoveIfBorderGrain` | TP1/main.cpp:75-86 | remove_if moves the non-border grains, in order, to the front of the buffer, returns the end of that range and keeps the vector's size |
| `BorderElimination.ComponentVector.EraseFrom` | TP1/main.cpp:75 | erase from the returned position truncates the vector to the elements before it |
| `BorderElimination.ComponentVector.EliminateBorderGrains` | TP1/main.cpp:75-87 | afterwards the vector holds exactly the grains that touch no border line, in their original order, in the same buffer, and its size dropped by the number of border grains |
| `Analysis.FirstObjectAsWritten` | TP1/main.cpp:89 | `objects[0]` is an element of the vector, defined only when the vector is not empty |
| `Analysis.EliminationCanLeaveNothing` | TP1/main.cpp:75-91 | a single grain touching the border of a 10 x 10 image leaves an empty vector, so `objects[0]` is out of range |
| `Analysis.PrepareBoundary` | TP1/main.cpp:26-91 | the grain handed to the boundary tracer with its cell space, or EmptyResult: a grain handed on is a component of the input that touches no border line, and the open box of its cell space holds exactly the points of the domain |
| `Analysis.PrepareBoundaryCorrect` | TP1/main.cpp:24-91 | the boundary input exists exactly when some grain touches no border line, and is EmptyResult otherwise; its grain is the first such grain; its cell space is the domain grown by one; and every point of the grain lies strictly inside the domain and the cell space |
| `Analysis.AnalyzeComponents` | TP1/main.cpp:66-91 | the counts reported are the number of components and the number of survivors, they differ by the number of border grains, and the grain handed on is the first survivor with the extended bounds, or EmptyResult |

## Left out

- Reading the PGM image and building the digital set from it (`PGMReader::importPGM`, `SetFromImage::append`): file I/O and library code. The domain and the components are parameters of the model.
- Extraction of the 4-connected components (`writeComponents` with the 4/8 topology): a library call whose code is not part of this model. Its output, a sequence of point sets, is the input of the model; that the components lie in the image domain is an assumption of the lemma that places a survivor strictly inside the domain.
- The seed search and boundary tracking (`findABel` with its 10000-probe bound, `track2DBoundaryPoints`, `SurfelAdjacency`, `Curve::initFromVector`): library calls whose code is not part of this model. Only the bounds the cell space is initialised with are modelled.
- Greedy segmentation with the standard 4-connected DSS recogniser: library calls whose code is not part of this model.
- Drawing on boards, styles, EPS output, the console output of the counts and of the segment ends, and `setlocale`: rendering, I/O and environment setup. The two printed counts are the `before` and `after` fields of `Analysis.Report`.
- Area, perimeter and circularity: the program computes none of them.
- Geometry.KSpaceBounds: does not model the 32-bit coordinates of DGtal points, so `lower - 1` and `upper + 1` never wrap around; a PGM image domain starts at (0, 0) and ends below the image size, far from the limits.
- The cell space is built from `object.domain()`, the domain of the grain, which the component extraction (library code) sets; the model takes it to be the image domain, over which `set2d`, the digital set the components are drawn from, was built (TP1/main.cpp:60).
- BorderElimination.IsBorderGrain: the order in which the point set is visited is left open (the set's own iteration order is library code); the answer does not depend on it.
- BorderElimination.ComponentVector.RemoveIfBorderGrain: says nothing about the elements left between the returned position and the old end, which the C++ standard leaves unspecified and which the erase then discards.
- The lambda takes each object by value; the copy has no observable effect and is not modelled.

## Findings

| source | as written | input that shows it | evidently intended | confidence | as-written member | corrected member |
|---|---|---|---|---|---|---|
| TP1/main.cpp:89-91 | `objects[0]` is read after the elimination without checking that the vector is non-empty | an image whose only grain touches the domain border, e.g. the grain {(0, 4)} in the domain (0, 0)..(9, 9): no grain survives and index 0 is out of range (undefined behaviour) | report that no grain is left instead of reading past the end | high, not executed | `Analysis.FirstObjectAsWritten` with `Analysis.EliminationCanLeaveNothing` | `Analysis.PrepareBoundary`, proved by `Analysis.PrepareBoundaryCorrect` and used by `Analysis.AnalyzeComponents` |
