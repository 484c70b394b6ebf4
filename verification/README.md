# Models of the ParFlow pre- and post-processing tools

`pftools` holds a number of small, self-contained algorithms: a dense linear
solver, two programs that turn a mask into a surface, a prism mesh reader, a
line/triangle intersection, a sort with its clients, a domain decomposition with
its distributed file, a flux stencil and a comparison of data sets.  This project
models them in Dafny and proves what they promise, for all inputs.  Where the C
code updates an array, a record or a linked list in place, so does the model, and
each such method is tied to a mathematical description about which the theorems
are stated.  Doubles that are computed with are exact reals; doubles that are only
stored are eight bytes.

`dafny verify dfyconfig.toml` checks everything.

## What is proved, by area

**Solving and fitting** (`Vectors`, `Blas`, `Linpack`, `LinpackSolve`, `PlaneFit`).
The solver interleaves pivots with eliminations, and never applies later interchanges
to earlier multipliers, so its factors are not those of a permuted matrix.  What they
are is stated by replaying: the recorded steps, applied to any original column, give
the stored upper triangle.  From this follow both solves, nonsingularity as the exact
condition for the absence of a zero pivot, and the growth bounds.  The plane fit is
optimal, strictly so, exactly when the vertices are not on one line.

**Surfaces of masks** (`MaskSurface`, `MaskMesh`, `MaskDomain`, and `PatchTable`, `PatchSlots`,
`PatchFill`, `PatchPoints`, `PatchClosed`, `PatchSolid`, `PatchDomain`).  A measure of triangles
is called oriented when it changes sign with the triangle.  Every oriented measure of an
emitted surface is the sum over the boxes of the active cells; circulation along an
edge gives closedness, the signed tetrahedron gives volume.  For the patchy solid, the
counting pass and the fill pass agree, the intervals of the patches tile the table, a
backward search finds the right point for every corner, and the table, in whatever
order the patches put its rows, is closed.  `MaskDomain` and `PatchDomain` say the same
in space, from the mask alone: a face bounds the domain when its cell is active and the
one across it is not, every such face is there exactly once, its two triangles lie at its
four corners and are counterclockwise from outside, and it carries the patch of its side.

**Prism meshes** (`Faces`, `PrismMesh`, `PrismDomain`).  The table of faces pairs each face with an
earlier one on the same vertices.  Being sisters is mutual if and only if no three faces
share their vertices, and then the faces written out are the boundary modulo 2.  Upright
prisms that share a side cut it alike, so that its triangles are paired and not written out.
`PrismDomain` says in coordinates which elements have volume, that each of these has its
eight triangles in the table, and that they all face away from an upright element.

**Projecting TINs** (`Crossing`, `LineTriangle`, `IntersectionList`, `ProjectionMesh`).
The crossing test with its vertex and edge cases is exact, the point returned is on
the triangle, and the sweep along the sorted vertices does to the linked list of every
vertex what testing all of them would do.

**Decomposition and files** (`RowMajor`, `Subgrids`, `UserGrid`, `BinaryIo`,
`Databoxes`, `Pfb`, `PfbRead`, `PfbLayout`, `Redistribute`).  The boxes partition the user's
grid, and writing a databox over them and reading the file gives the databox back.
`PfbLayout` says which byte of the file holds what: the header, the numbers of each block,
the cells, and where the distribution file says that blocks start and end.

**Sorting, welding, triangulating** (`QuickSort`, `Weld`, `Triangulate`).  The sort is
correct with its unguarded scan, and carries the permutation; welding and compaction
leave every triangle where it was.

**Flux and differences** (`Flux`, `SigDiff`).  The pointer walk computes the six-face
stencil, whose flux through a face is the one that a head at the face explains from both
sides, and conserves it.  The digit loop ends and its count is exact; what it is to agree is
stated in the values, for any number of digits, and for exact comparison.

`Reals` and `Sequences` hold a few shared notions.

## Where the code and its description differ

- `pftools/diff.c:68` describes the test against absolute zero the wrong way round; the
  code, and the model, compare only pairs whose larger value is above it (line 134).
- What `SigDiff` prints as the maximum absolute difference is the one at the cell it
  reports.  `SigDiff.PrintsLargestIffLevel` says, over the magnitudes in the boxes, exactly
  when that is sure to be the largest (with absolute zero 0: when all magnitudes other than 0
  are equal), `SigDiff.PrintedBoundsAll` by how much it can fall short, and
  `SigDiff.ReportedIsNotLargest` has two boxes on which it does.  `MSigDiff` does return the
  largest.
- With a negative absolute zero two zeros are compared, as 0/0.  The quotient is not a number,
  exceeds nothing, and so counts as agreement; the model has no division there.
- `LoadParflowB` writes the header once for each subgrid of process 0, and the number of
  processes as the number of subgrids.  `PfbRead.OneHeaderIffOneRoot` gives the exact
  condition for a single header, `PfbRead.TwoRootsTwoHeaders` an input without one;
  `Redistribute.ReadableIffLoadable` gives that for a file that can be read, namely also as
  many subgrids as processes, and `Redistribute.ProcessesMiscounted` inputs where the count is
  wrong.  `DistributeUserGrid` always meets it.
- The merge in `gmstriangulate.c` joins the r-th mask vertex at a position with the r-th
  TIN vertex there, so mask vertices at a crowded position can be left without partner.
  `Triangulate.CompleteIffEnough` says exactly when none is, `Triangulate.CrowdedMaskMisses`
  has an input on which one is, and `Triangulate.AlwaysCompleteIffEnough` says the same of
  the triangles.
- `bgmsfem2pfsol.c` cuts a side by comparing its two lower nodes.  A prism listed upside
  down may therefore cut a shared side the other way: `PrismMesh.InvertedSideCutAlike`
  says exactly when it does not.
- Elements without volume are passed over, but their slots remain in the face table
  with zeros; since zero is not the mark for "no sister", they are never written.
- `MakePatchySolid` declares two arrays one entry shorter than it fills
  (`pftools/solidtools.c:308` and `371`).  The model has `7 + np_usr` slots, for masks
  without negative values that mark at most thirty patches.
- One face of `pfmask-to-pfsol.cpp` marks one of its vertices as used twice and another not
  at all; as another triangle marks that one, no vertex is lost.

## Model

| member | source | states |
|---|---|---|
| Blas.Isamax | pftools/extrap_TIN.c:427-503 | returns the one-based place of the first entry of largest absolute value, 0 when there are no entries |
| Blas.Saxpy | pftools/extrap_TIN.c:505-599 | the clean-up loop and the loop unrolled four times together add the multiple to exactly the n entries, and change nothing else |
| Blas.Sscal | pftools/extrap_TIN.c:601-679 | likewise for scaling, unrolled five times |
| Blas.Sdot | pftools/extrap_TIN.c:856-953 | the unrolled accumulation is the dot product, 0 when n is not positive |
| Linpack.PivotFound | pftools/extrap_TIN.c:359-364 | the place the search returns holds a largest entry of the rest of the pivot column, and a zero there means the rest of the column is zero |
| Linpack.MakeMultipliers | pftools/extrap_TIN.c:375-392 | in place: the pivot column after the interchange and the scaling by the negative reciprocal |
| Linpack.EliminateColumn | pftools/extrap_TIN.c:395-415 | in place: one later column after its own interchange and its update, the rest of the array untouched |
| Linpack.EliminateStep | pftools/extrap_TIN.c:375-415 | the array after one elimination step is one pivot step of the matrix |
| Linpack.ReducedStep | pftools/extrap_TIN.c:359-417 | each step keeps the invariant that replaying the steps so far on any original column gives the current one, though earlier multipliers are never interchanged |
| Linpack.GrownStep | pftools/extrap_TIN.c:359-417 | one step keeps multipliers at most 1 in size and at most doubles every other entry |
| Linpack.Sgefa | pftools/extrap_TIN.c:281-425 | for every matrix: replaying the recorded interchanges and multipliers on the original columns gives the stored upper triangle; info is the place of the last zero pivot or 0; multipliers are at most 1 and an entry updated k times is at most 2^k times the largest original entry |
| LinpackSolve.SweepForward | pftools/extrap_TIN.c:781-796 | the loop over b replays the elimination steps on it |
| LinpackSolve.BackSubstitute | pftools/extrap_TIN.c:800-809 | after the loop U times the new b is the old b |
| LinpackSolve.SubstituteT | pftools/extrap_TIN.c:816-824 | after the loop the transpose of U times the new b is the old b |
| LinpackSolve.SweepBackward | pftools/extrap_TIN.c:832-850 | the loop applies the transposed steps in reverse order |
| LinpackSolve.TriangularSystem | pftools/extrap_TIN.c:775-812 | x solves A x = b if and only if it solves the triangular system with the forward-eliminated b |
| LinpackSolve.ForwardDual | pftools/extrap_TIN.c:832-850 | the backward sweep is the adjoint of the forward sweep |
| LinpackSolve.TransposedSystem | pftools/extrap_TIN.c:813-850 | a solution of the transposed triangular system, swept backwards, solves the transposed original system |
| LinpackSolve.NonsingularIffNonzeroDiagonal | pftools/extrap_TIN.c:399-425 | the factors have no zero pivot if and only if A is nonsingular |
| LinpackSolve.Sgesl | pftools/extrap_TIN.c:687-854 | on what sgefa leaves with no zero pivot: A x = b for job 0, and the transposed system for every other job, A and b being the originals |
| PlaneFit.NormalProduct | pftools/extrap_TIN.c:181-206 | what the nine assembled entries do to a coefficient vector |
| PlaneFit.CrossIsGradient | pftools/extrap_TIN.c:181-206 | the assembled system is the gradient: its residual against d is the sum over the points of residual times the value of d there |
| PlaneFit.MisfitSplit | pftools/extrap_TIN.c:181-223 | the misfit of any plane is that of another plus a cross term plus the squared size of the difference |
| PlaneFit.SolutionIsOptimal | pftools/extrap_TIN.c:181-223 | a solution of the assembled system has least squared misfit of all planes, and ties only with planes equal to it at every point |
| PlaneFit.SolvableIffNotOnOneLine | pftools/extrap_TIN.c:181-216 | the assembled matrix is nonsingular if and only if the points are not all on one line of the (x, y) plane |
| PlaneFit.InfoTellsCollinearity | pftools/extrap_TIN.c:206-216 | info is 0 exactly when the points are not on one line |
| PlaneFit.Assemble | pftools/extrap_TIN.c:181-206 | the loops leave the normal matrix, column by column, and the right-hand side of the vertices read |
| PlaneFit.FillNewPoints | pftools/extrap_TIN.c:218-223 | the eight leading slots hold the new points, written out, at the height of the plane, the vertices behind them are untouched |
| PlaneFit.Extrapolate | pftools/extrap_TIN.c:181-223 | info tells whether the vertices are on one line; if not, the plane computed beats every other plane strictly and the new points lie on it |
| MaskSurface.OppositeFaces | pftools/pfmask-to-pfsol.cpp:541-700 | a wall emitted for a cell on one side is, for every oriented measure, the opposite of the one that the neighbour would emit |
| MaskSurface.CellSum | pftools/pfmask-to-pfsol.cpp:541-700 | the faces of a cell amount to its whole box less terms that telescope against its neighbours |
| MaskSurface.SurfaceSum | pftools/pfmask-to-pfsol.cpp:541-700 | for every mask and every oriented measure, the emitted surface measures what the boxes of the active cells measure |
| MaskSurface.BoxCirculation | pftools/pfmask-to-pfsol.cpp:541-700 | nothing circulates around a box: its twelve triangles cancel along every directed edge |
| MaskSurface.BoxMeasuresVolume | pftools/pfmask-to-pfsol.cpp:541-700 | the signed volume of a box of triangles is that of the cell |
| MaskSurface.SurfaceCirculation | pftools/pfmask-to-pfsol.cpp:541-700 | for every mask each directed edge balances its reverse, under any renumbering of vertices |
| MaskSurface.SurfaceClosed | pftools/pfmask-to-pfsol.cpp:541-700 | every directed edge u to v occurs exactly as often as v to u |
| MaskSurface.SurfaceVolume | pftools/pfmask-to-pfsol.cpp:541-700 | the enclosed signed volume is (active cells) times dx dy dz |
| MaskMesh.VertexInjective | pftools/pfmask-to-pfsol.cpp:525-540 | different grid corners get different vertex indices |
| MaskMesh.PlaceVertices | pftools/pfmask-to-pfsol.cpp:525-540 | every vertex gets the coordinates of its corner and is unmarked |
| MaskMesh.EmitCell | pftools/pfmask-to-pfsol.cpp:541-700 | appends the faces of one cell and marks exactly the vertices used |
| MaskMesh.EmitSurface | pftools/pfmask-to-pfsol.cpp:541-700 | the emission loop produces the surface, with exactly its vertices marked |
| MaskMesh.Compact | pftools/pfmask-to-pfsol.cpp:703-714 | the new list holds the marked vertices in order, and each knows its place there |
| MaskMesh.Reindex | pftools/pfmask-to-pfsol.cpp:717-722 | every corner of every triangle is mapped by the recorded places |
| MaskMesh.CornersKept | pftools/pfmask-to-pfsol.cpp:703-722 | compaction and reindexing leave the coordinates of all corners as they were, and leave no vertex unused |
| MaskDomain.CornersAt | pftools/pfmask-to-pfsol.cpp:525-540 | the vertex of a grid corner lies that many spacings from the origin along each axis |
| MaskDomain.CellIsList | pftools/pfmask-to-pfsol.cpp:541-700 | the triangles emitted for a cell, in pairs, cut its faces that bound the domain, counterclockwise from outside, and carry the indicator of their side |
| MaskDomain.SurfaceIsList | pftools/pfmask-to-pfsol.cpp:541-700 | the same for the whole mask, in the order of the cells |
| MaskDomain.DomainListed | pftools/pfmask-to-pfsol.cpp:541-700 | that lists every bounding face of the active cells exactly once |
| MaskDomain.FacesKept | pftools/pfmask-to-pfsol.cpp:703-722 | compaction and reindexing move no face |
| MaskDomain.BuildMesh | pftools/pfmask-to-pfsol.cpp:525-722 | two triangles for every bounding face of the active cells, with its corners in space, its orientation and the indicator of its side; closed, enclosing the active cells; exactly the vertices listed are used |
| Crossing.CrossingTestExact | pftools/projecttin.c:883-998 | for a projected triangle of nonzero area, the crossing parity with its vertex and edge cases finds the origin if and only if it lies in the closed triangle |
| LineTriangle.WalkEdges | pftools/projecttin.c:859-998 | the loop with its early exits decides the crossing test, and a vertex or edge it stops at does contain the line |
| LineTriangle.OnTriangleMeets | pftools/projecttin.c:816-858 | convex weights in translated coordinates are convex weights in space |
| LineTriangle.WeightsMeet | pftools/projecttin.c:816-858 | weights in space are weights in the coordinates of the test |
| LineTriangle.EdgePoint | pftools/projecttin.c:1114-1290 | interpolates along the edge unless the edge is parallel to the line |
| LineTriangle.EdgePointOnPlane | pftools/projecttin.c:1114-1290 | on an edge that meets the line the interpolated point is on the plane, in all six branches |
| LineTriangle.AffineOnPlane | pftools/projecttin.c:1371-1395 | an affine combination of the corners on the line satisfies the plane equation |
| LineTriangle.PlanePoint | pftools/projecttin.c:1371-1395 | the coordinate computed satisfies the plane equation |
| LineTriangle.IntersectLineWithTriangle | pftools/projecttin.c:756-1397 | in all three directions: reports an intersection if and only if the normal has a component along the line and the line meets the closed triangle; the point lies on the line and is a weighted mean of the corners; the sign is that of the normal component, written out; nothing is reported for other direction values |
| IntersectionList.List.AddIntersectionPoint | pftools/projecttin.c:160-253 | the pointer surgery leaves a well-formed doubly linked list whose contents are those before with the point inserted or merged |
| IntersectionList.InsertedAscending | pftools/projecttin.c:160-253 | insertion keeps the list strictly ordered by z ascending, then layer descending, hence without duplicates |
| IntersectionList.InsertedOnce | pftools/projecttin.c:160-253 | it lists no triangle twice in an entry |
| IntersectionList.InsertedOrdered | pftools/projecttin.c:160-253 | both at once |
| IntersectionList.InsertedRecords | pftools/projecttin.c:160-253 | a (triangle, z, layer) triple is recorded afterwards if and only if it was before or is the one added |
| ProjectionMesh.Mesh.AddVertex | pftools/projecttin.c:255-310 | the vertex list stays well linked and in order of x, with the new vertex spliced in, bringing an empty list of its own |
| ProjectionMesh.Mesh.FindFirstProjectionPoint | pftools/projecttin.c:141-158 | finds the first vertex with x at least min_x, all before it being to the left |
| ProjectionMesh.Mesh.NextProjectionPoint | pftools/projecttin.c:131-139 | moves on to the next vertex, or ends when that is beyond max_x |
| ProjectionMesh.HitInRange | pftools/projecttin.c:440-450 | a vertical line that meets a triangle is within its x range |
| ProjectionMesh.HitHeightUnique | pftools/projecttin.c:440-475 | there is one height at which it does |
| ProjectionMesh.AfterTinRecords | pftools/projecttin.c:425-488 | what is recorded after projecting is what was before and exactly the heights at which the TIN is met, and order is kept |
| ProjectionMesh.SweptSkip | pftools/projecttin.c:440-486 | vertices outside the x range of the triangle need no test |
| ProjectionMesh.Mesh.ProjectOnto | pftools/projecttin.c:457-484 | one test changes the linked list of that vertex alone, and leaves all lists well linked, strictly in order and apart |
| ProjectionMesh.Mesh.ProjectTriangle | pftools/projecttin.c:452-486 | sweeping the vertices in range leaves in every linked list what testing every vertex of the mesh would |
| ProjectionMesh.Mesh.AddTin | pftools/projecttin.c:425-488 | projecting a TIN leaves in every linked list what testing every triangle against that vertex would, all lists well linked, strictly in order and sharing nothing |
| QuickSort.Order.Total | pftools/geom_sort_xy_vertices.c:41-51 | either comparison, by (z, y, x) or by (y, x), written out in coordinates, is a total preorder: two vertices are in one order or the other, and one precedes when the other does not |
| QuickSort.MedianToFront | pftools/quicksort.c:84-110 | puts a median of three in front, with a bound on either side of it |
| QuickSort.ScanUp | pftools/quicksort.c:116-123 | stops at the first entry not below the pivot, inside the range |
| QuickSort.ScanDown | pftools/quicksort.c:125-132 | the scan without a bound test stops on the pivot at the latest |
| QuickSort.Partition | pftools/quicksort.c:112-150 | everything before the returned place is at most the pivot, everything after at least |
| QuickSort.Insert | pftools/quicksort.c:166-188 | inserting one entry into a sorted run leaves a longer sorted run |
| QuickSort.QuickSort | pftools/quicksort.c:62-190 | the range is sorted; array and permute are both rearranged by one permutation that moves nothing outside the range |
| QuickSort.SortVertices | pftools/geom_sort_vertices.c:82-100 | the whole array ascends by z, then y, then x and, if asked for, permute says where each vertex came from; the same for the two-key order |
| QuickSort.SameMultiset | pftools/quicksort.c:62-190 | such a rearrangement has the multiset of the original |
| QuickSort.PermutesOnto | pftools/quicksort.c:62-190 | the permutation reaches every place |
| Weld.Concatenate | pftools/gmsSOL2pfsol.c:90-102 | one array with the vertices of all solids in order |
| Weld.KeepIfNew | pftools/gmsSOL2pfsol.c:115-123 | moves a vertex down if it differs from the last one kept |
| Weld.WeldVertex | pftools/gmsSOL2pfsol.c:115-125 | one turn of the loop keeps the description of what is welded |
| Weld.EliminateDuplicates | pftools/gmsSOL2pfsol.c:112-127 | in place: the front holds one copy of every sorted vertex, and old_to_new leads to it |
| Weld.WeldComplete | pftools/gmsSOL2pfsol.c:90-127 | the welded vertices ascend strictly by z, then y, then x, are exactly the input coordinates, and every input vertex maps to its own coordinates |
| Weld.RemapSolid | pftools/gmsSOL2pfsol.c:160-178 | every triangle of the solid keeps its three corner coordinates |
| Weld.WriteSolids | pftools/gmsSOL2pfsol.c:150-180 | the same for all solids, each at its own offset |
| Weld.WeldSolids | pftools/gmsSOL2pfsol.c:90-180 | the program from the solids read to the vertices and triangles written |
| Triangulate.MergeStep | pftools/gmstriangulate.c:145-157 | one comparison advances a cursor and loses no partner |
| Triangulate.Merge | pftools/gmstriangulate.c:139-158 | the r-th mask vertex at a position is joined with the r-th TIN vertex there |
| Triangulate.JoinFits | pftools/gmstriangulate.c:139-158 | every partner stands at the same (x, y) |
| Triangulate.CompleteIffEnough | pftools/gmstriangulate.c:139-158 | every mask vertex whose position occurs in the TIN gets a partner if and only if no shared position has more mask vertices than TIN vertices |
| Triangulate.DistinctIsEnough | pftools/gmstriangulate.c:139-158 | that is so whenever the mask has no two vertices at one position |
| Triangulate.CountRearranged | pftools/gmstriangulate.c:134-137 | how many vertices stand at a position does not depend on sorting |
| Triangulate.JoinTin | pftools/gmstriangulate.c:134-158 | sorts the TIN and joins it with the mask |
| Triangulate.SelectTriangles | pftools/gmstriangulate.c:165-185 | keeps exactly the triangles with three partners, in order |
| Triangulate.TakeTriangles | pftools/gmstriangulate.c:134-188 | the triangles selected have the corners of mask triangles; they are all that can be made if the TIN has enough vertices, and, when the mask triangles reach every shared vertex, only if |
| Triangulate.MarkUsed | pftools/gmstriangulate.c:203-210 | marks exactly the vertices some triangle uses |
| Triangulate.PackVertices | pftools/gmstriangulate.c:211-220 | moves the marked vertices to the front in order and records where |
| Triangulate.Renumber | pftools/gmstriangulate.c:223-228 | rewrites every corner by that record |
| Triangulate.DeleteUnused | pftools/gmstriangulate.c:190-229 | no triangle changes geometrically, order is kept, every vertex left is used |
| Triangulate.CrowdedMaskMisses | pftools/gmstriangulate.c:139-158 | two mask vertices over one TIN vertex: the join leaves one of them without a partner |
| Triangulate.CompleteIffAllPartnered | pftools/gmstriangulate.c:165-185 | a selection has every triangle whose corners all occur if and only if none of these has a corner without partner |
| Triangulate.AlwaysCompleteIffEnough | pftools/gmstriangulate.c:139-185 | after the join the selection is complete for every list of mask triangles if and only if the TIN has enough vertices at every shared position |
| Triangulate.SelectInTin | pftools/gmstriangulate.c:134-188 | sorts one TIN and selects its triangles |
| Triangulate.CleanTin | pftools/gmstriangulate.c:197-229 | deletes its unused vertices, the selection still standing |
| Triangulate.TriangulateTins | pftools/gmstriangulate.c:107-229 | the program on all the TINs: selection, its completeness both ways, geometry, order and use together, for each |
| Faces.InvolutionIffAtMostTwice | pftools/bgmsfem2pfsol.c:140-160 | being sisters is mutual if and only if no three faces have the same vertices |
| Faces.RecordedPaired | pftools/bgmsfem2pfsol.c:140-160 | recording a new face keeps every sister entry right |
| Faces.UnpairedAreLone | pftools/bgmsfem2pfsol.c:696-725 | the unpaired faces are exactly those whose vertices no other face has |
| Faces.AlikeArePaired | pftools/bgmsfem2pfsol.c:140-160 | two faces with the same vertices have sisters, each other unless a third has them too, and none with these vertices is unpaired |
| Faces.UnpairedParity | pftools/bgmsfem2pfsol.c:696-725 | an edge lies in as many unpaired faces as it lies in faces, modulo 2 |
| PrismMesh.OutwardFacesAway | pftools/bgmsfem2pfsol.c:170-205 | the stored face has the vertices given and the opposite node on its inner side |
| PrismMesh.Table.FaceExists | pftools/bgmsfem2pfsol.c:227-272 | finds the first face with the same three vertices through the list of one of them, or none |
| PrismMesh.Table.AddFace | pftools/bgmsfem2pfsol.c:140-225 | adds the face, turned outwards, its sister entries and its entries in the lists of its nodes |
| PrismMesh.Table.FindAcross | pftools/bgmsfem2pfsol.c:486-493 | finds an inner node of a base triangle of a prism that has volume |
| PrismMesh.Table.AddQuad | pftools/bgmsfem2pfsol.c:502-545 | adds the two triangles of a side cut by its smaller lower node |
| PrismMesh.Table.AddSide | pftools/bgmsfem2pfsol.c:471-550 | adds the one or two triangles of a side |
| PrismMesh.Table.AddElement | pftools/bgmsfem2pfsol.c:471-550 | adds the eight triangles of a prism |
| PrismMesh.KeepElement | pftools/bgmsfem2pfsol.c:394-552 | adds them unless all three upper nodes are level with the lower ones |
| PrismMesh.FillTable | pftools/bgmsfem2pfsol.c:394-560 | adds the prisms one after another |
| PrismMesh.BuildTable | pftools/bgmsfem2pfsol.c:394-560 | the finished table holds exactly the triangles of the prisms kept |
| PrismMesh.SharedSideCutAlike | pftools/bgmsfem2pfsol.c:501-545 | two prisms sharing a side, seen from its two sides, cut it along the same diagonal |
| PrismMesh.InvertedSideCutAlike | pftools/bgmsfem2pfsol.c:501-545 | a prism listed upside down cuts it alike if and only if the lower and upper node numbers are in the same order |
| PrismMesh.SharedSideFacesMatch | pftools/bgmsfem2pfsol.c:501-550 | the two triangles one prism gives a shared side are those the other gives |
| PrismMesh.AlikeAreInside | pftools/bgmsfem2pfsol.c:394-560 | triangles of two kept elements with the same vertices are paired in the finished table, and no face with these vertices is written out |
| PrismMesh.SharedSideIsInside | pftools/bgmsfem2pfsol.c:471-550 | so are both triangles of a side that two kept elements share and cut alike |
| PrismMesh.UprightSideIsInside | pftools/bgmsfem2pfsol.c:501-550 | which they do when both stand upright |
| PrismMesh.PrismIsClosed | pftools/bgmsfem2pfsol.c:471-550 | every edge lies in an even number of the triangles of a prism |
| PrismMesh.MeshIsClosed | pftools/bgmsfem2pfsol.c:394-560 | every edge lies in an even number of the faces of the mesh |
| PrismMesh.BoundaryIsClosed | pftools/bgmsfem2pfsol.c:696-725 | every edge lies in an even number of the unpaired faces, when no three faces have the same vertices |
| PrismMesh.CountBoundary | pftools/bgmsfem2pfsol.c:696-702 | counts the unpaired faces |
| PrismMesh.ListBoundary | pftools/bgmsfem2pfsol.c:706-725 | lists the unpaired faces in order, with zero-based nodes |
| PrismDomain.OutwardIsTurned | pftools/bgmsfem2pfsol.c:170-205 | the stored order of a face is decided by a 3 by 3 determinant of its corners and the opposite node |
| PrismDomain.KeptIffVolume | pftools/bgmsfem2pfsol.c:429-467 | in coordinates: an element is kept if and only if some upper node is not level with the lower one and the lower nodes stand at three places |
| PrismDomain.ElementIsBoundary | pftools/bgmsfem2pfsol.c:471-550 | the eight triangles of an element, written out: both bases and three walls, each with its diagonal and the node it faces away from |
| PrismDomain.UprightFacesAway | pftools/bgmsfem2pfsol.c:170-205 | no node of an upright element is in front of any of its triangles |
| PrismDomain.MeshHoldsElements | pftools/bgmsfem2pfsol.c:394-560 | every element with volume has its eight triangles in the table, together and in order, and the others add none |
| PrismDomain.WriteDomain | pftools/bgmsfem2pfsol.c:394-725 | from mesh to domain: exactly the triangles of the elements with volume are in the table, the faces written are the unpaired ones with zero-based nodes, their count is right, sisters are mutual if and only if no vertex set occurs three times, and then the boundary is closed modulo 2 |
| Subgrids.SubgridArray.constructor | pftools/region.c:80-90 | a new array is empty |
| Subgrids.SubgridArray.Grow | pftools/region.c:184-196 | the larger storage holds the same entries |
| Subgrids.SubgridArray.Append | pftools/region.c:172-200 | the contents are those before and the new entry at the end |
| Subgrids.CopyGrid | pftools/usergrid.c:148-175 | a copy with the same entries in storage of its own |
| UserGrid.AxisPartition | pftools/usergrid.c:142-144 | along an axis the blocks adjoin from the first cell on and partition the cells; their sizes do not increase and differ by at most one |
| UserGrid.CellInOneBox | pftools/usergrid.c:239-269 | a cell is in the user grid if and only if it is in a box, and then in only one |
| UserGrid.ProcessesAreBijective | pftools/usergrid.c:146 | process numbers are a bijection from the boxes onto 0 .. PQR - 1 |
| UserGrid.BlocksLeast | pftools/usergrid.c:209-220 | the number of blocks tried is the least that is no less than n / m and leaves no block longer than m + 1 |
| UserGrid.TryBlocks | pftools/usergrid.c:213-219 | the number of blocks tried along one axis |
| UserGrid.ChooseBlocks | pftools/usergrid.c:207-224 | the loop ends, with the first m tried whose product is not above the number of processes |
| UserGrid.ChosenBlocksShort | pftools/usergrid.c:207-224 | for that m there is a block along every axis and none is longer than m + 1 |
| UserGrid.BoxLaidOut | pftools/usergrid.c:239-266 | the place in the array, process, corner and sizes of a box in literal numbers |
| UserGrid.LayoutIsBoxes | pftools/usergrid.c:239-266 | the boxes made for a user grid and a process grid, in literal numbers: place in the array, corner, sizes, process |
| UserGrid.NewBox | pftools/usergrid.c:258-266 | one box by its place |
| UserGrid.AppendColumn | pftools/usergrid.c:255-267 | the boxes of the innermost loop |
| UserGrid.AppendBoxes | pftools/usergrid.c:239-269 | the triple loop appends every box in order |
| UserGrid.DistributeUserGrid | pftools/usergrid.c:177-269 | returns nothing if and only if PQR is not the number of processes, and else the boxes of the layout, each with its corner, sizes and process |
| BinaryIo.NumberOfMemory | pftools/tools_io.c:195-277 | an integer is recovered from its machine bytes, negative ones included |
| BinaryIo.File.WriteDouble | pftools/tools_io.c:157-193 | appends the doubles with the bytes of each reversed |
| BinaryIo.File.WriteInt | pftools/tools_io.c:195-220 | the same for integers |
| BinaryIo.File.ReadDouble | pftools/tools_io.c:222-250 | reads back the double that was written |
| BinaryIo.File.ReadDoubles | pftools/tools_io.c:222-250 | reads a run of doubles into its place in a buffer and touches nothing else there |
| BinaryIo.File.ReadInt | pftools/tools_io.c:251-277 | reads back the integer that was written |
| RowMajor.GridInjective | pftools/databox.h:93-95 | row-major places inside a grid belong to one cell each |
| Databoxes.CoversItsCells | pftools/databox.h:93-95 | a buffer place lies in a row of a subgrid if and only if its cell lies in the subgrid |
| Databoxes.FillBox | pftools/databox.c:83-92 | the loops set every place of the buffer |
| Databoxes.Databox.constructor | pftools/databox.c:61-111 | a box with the extent and background given, full of the default value |
| Pfb.FindNumProcs | pftools/load.c:77-92 | one more than the largest process number |
| Pfb.WriteHeader | pftools/load.c:139-157 | appends the header |
| Pfb.WriteBlock | pftools/load.c:159-183 | appends the nine numbers of the subgrid and its cells, row by row out of the full box |
| Pfb.BlockLength | pftools/load.c:185 | the size added to the position is the number of bytes of the block |
| Pfb.WriteEntry | pftools/load.c:130-190 | appends what a subgrid gives, header included for process 0, and advances the position by as many bytes |
| Pfb.OffsetsAt | pftools/load.c:73-199 | each entry of the distribution file is the number of bytes written before it |
| Pfb.LoadParflowB | pftools/load.c:44-199 | the file is the entries process by process, and the distribution file their offsets |
| PfbLayout.WordIsThere | pftools/tools_io.c:157-193 | a double written has its bytes in the file backwards |
| PfbLayout.IntIsThere | pftools/tools_io.c:195-220 | an integer written has its two's complement in the file, highest byte first |
| PfbLayout.HeaderLaidOut | pftools/load.c:139-157 | origin, extent, spacing and number of blocks at the bytes 0 to 63 |
| PfbLayout.CellLaidOut | pftools/load.c:179-183 | cell (i, j, k) of a block is 36 + 8 ((k ny + j) nx + i) bytes into it |
| PfbLayout.BlockLaidOut | pftools/load.c:159-183 | a block has its nine numbers and every cell of its subgrid at their places |
| PfbLayout.FileLaidOut | pftools/load.c:139-183 | so has the whole file |
| PfbLayout.FileIndexed | pftools/load.c:73-199 | the first block starts at byte 64, every other where the distribution file says that the one before ended, and the last line is the length of the file |
| PfbRead.OneHeaderIffOneRoot | pftools/load.c:139-157 | the file is one header followed by blocks if and only if process 0 has exactly one subgrid |
| PfbRead.TwoRootsTwoHeaders | pftools/load.c:139-157 | with two subgrids of process 0 it is not |
| PfbRead.OffsetsListed | pftools/load.c:73-199 | with one, each line of the distribution file is the length of the file up to the end of a block |
| PfbRead.AllWritten | pftools/load.c:119-130 | every subgrid is written exactly once |
| PfbRead.ReadHeader | pftools/readdatabox.c:349-362 | reads back the header |
| PfbRead.ReadBlock | pftools/readdatabox.c:372-391 | reads a block into exactly its own cells |
| PfbRead.ReadParflowB | pftools/readdatabox.c:321-398 | on a well laid out file: consumes it all, and yields each cell of the subgrids and the default value elsewhere |
| Redistribute.WriteThenRead | pftools/load.c:44-199 | writing a box over any loadable subgrids and reading it gives every covered cell back and the default elsewhere, with extent and background; every header field, block number and cell is at its byte in the file, blocks are in the order of processes, and every line of the distribution file is where one ends |
| Redistribute.ReadableIffLoadable | pftools/load.c:73-199 | what is written is one header followed by as many blocks as it says if and only if process 0 has one subgrid and there are as many subgrids as processes |
| Redistribute.ProcessesMiscounted | pftools/load.c:77-92 | a gap in the process numbers makes the count in the header one too large, a process with two subgrids one too small |
| Redistribute.DistributedIsLoadable | pftools/usergrid.c:239-269 | the boxes of the user grid meet that condition |
| Redistribute.LoadBoxes | pftools/pftools.c:222-235 | writing over the boxes of a process grid and reading restores the box on the user grid, and the distribution file lists where the blocks of the boxes end |
| Redistribute.Redistribute | pftools/pftools.c:188-235 | the same, file included, through the distribution of the user grid, chosen or asked for; it gives up if and only if the process grid has not the number of processes, which one multiplied out always has |
| Flux.FaceFluxIs | pftools/flux.c:48 | there is one head at the face with which the same flows from the first cell to the face as from the face to the second, half a spacing each; nothing flows if the conductivities cancel |
| Flux.FaceFluxUnique | pftools/flux.c:48 | only one flux is so, and it is 0 if a conductivity is 0 |
| Flux.NetIsNetFlux | pftools/flux.c:129-137 | the stored value is made of the six such fluxes |
| Flux.FluxReversed | pftools/flux.c:48 | the mean does not depend on order, so the flux between two cells only changes sign |
| Flux.NetIsOutward | pftools/flux.c:129-137 | what is stored for a cell is what flows from it to its six neighbours, each flow the opposite of the one the other way |
| Flux.CellFlux | pftools/flux.c:129-137 | the six pointer offsets pick the six neighbours: the value is the net flux of the cell |
| Flux.WalkRow | pftools/flux.c:98-145 | the row loop and the step after it bring the pointers to the next row |
| Flux.WalkSlab | pftools/flux.c:98-145 | the same for a slab |
| Flux.CompFlux | pftools/flux.c:54-148 | every interior cell holds the sum of the six face fluxes defined by a head at each face, the rim zero, and their total is what passes the outer faces |
| Flux.FluxConserved | pftools/flux.c:98-145 | the net fluxes of the interior cells add up to the flux through the outer faces of their block; two cells compute the flux through a shared face alike |
| Flux.StoredFluxConserved | pftools/flux.c:98-145 | and so does any result that stores them |
| SigDiff.DifferenceOf | pftools/diff.c:130-140 | the relative difference times the larger magnitude is the absolute difference |
| SigDiff.PowersAdd | pftools/diff.c:114-119 | the powers in the bound are those of ten |
| SigDiff.AgreesIff | pftools/diff.c:114-139 | a relative difference passes the bound exactly when the values agree: for m digits to half a unit of the m-th digit of the larger one, for negative m only when they are equal |
| SigDiff.ScanBox | pftools/diff.c:114-160 | the triple loop keeps the first largest relative difference, its cell, and a line for every differing cell |
| SigDiff.Archimedes | pftools/diff.c:163-172 | a positive difference multiplied by ten often enough exceeds 0.05 |
| SigDiff.CountDigits | pftools/diff.c:163-172 | the loop ends at the first multiplication that does |
| SigDiff.DigitsAreMost | pftools/diff.c:163-172 | the count is the largest q >= 1 with difference at most 0.5 * 10^-q, or 0 if there is none |
| SigDiff.Reported | pftools/diff.c:114-181 | from the search to the report: peak, count and agreement |
| SigDiff.SigDiff | pftools/diff.c:82-181 | says nothing if and only if all values compared agree to m digits, or, for negative m, are equal; else the cell is a peak, the digit count is exact for all pairs compared, and the absolute difference is the one at that cell; for every absolute zero |
| SigDiff.MSigDiff | pftools/diff.c:185-304 | the same cell and count, with the largest absolute difference of all; for every absolute zero |
| SigDiff.PrintsLargestIffLevel | pftools/diff.c:150-180 | the difference printed as the maximum is the largest, whatever the values of given magnitudes, if and only if the magnitudes compared are equal and twice any other is at most the tolerance times them |
| SigDiff.LevelAtZero | pftools/diff.c:114-180 | with absolute zero 0 that is: all magnitudes other than 0 are equal |
| SigDiff.PrintedBoundsAll | pftools/diff.c:114-180 | for any values, a difference of compared values is at most the one printed times the greatest magnitude over that at the cell printed; others are at most twice absolute zero |
| SigDiff.ReportedIsNotLargest | pftools/diff.c:150-180 | two boxes on which, for every m, a difference is printed, and every report a run can give has 2 as the maximum where values differ by 10 |
| PatchTable.ScanArray | pftools/solidtools.c:58-70 | the first place of the value, -1 if it is not there |
| PatchTable.Counters.AddDefault | pftools/solidtools.c:165-172 | counts a face of a default patch |
| PatchTable.Counters.AddUser | pftools/solidtools.c:180-195 | counts a face of a user patch, listing the patch if it is new |
| PatchTable.CountedIsCell | pftools/solidtools.c:163-250 | counting a cell in its order gives the faces the fill pass will store |
| PatchTable.CountCell | pftools/solidtools.c:163-250 | counts all the faces of a cell |
| PatchTable.CountFaces | pftools/solidtools.c:152-253 | after the pass the counters hold the number of faces of every patch, and the list its distinct user patches |
| PatchTable.DirectionsAddUp | pftools/solidtools.c:549-725 | the six directions of a patch add up to its faces |
| PatchSlots.SortPatches | pftools/solidtools.c:265-295 | selection sort: user patches ascending, each with its own count |
| PatchSlots.ValuesCover | pftools/solidtools.c:315-350 | the slots have different values, and every face has one |
| PatchSlots.BaseTotal | pftools/solidtools.c:315-350 | their intervals together are as long as the face table |
| PatchSlots.MakeSlots | pftools/solidtools.c:297-355 | each slot gets an interval as long as its count, one after another, and an untouched write counter |
| PatchSlots.CountAll | pftools/solidtools.c:299-305 | cell_faces is the number of faces |
| PatchPoints.CornersToAdd | pftools/solidtools.c:421-448 | the four neighbour tests mark exactly the corners that no earlier cell touches |
| PatchPoints.SearchBack | pftools/solidtools.c:517-545 | finds the last point with the coordinates, with 0 for both first and none |
| PatchPoints.FindPoint | pftools/solidtools.c:517-545 | the search returns the one point of the corner wanted, index 0 included |
| PatchPoints.PointBase.MakePoint | pftools/solidtools.c:450-545 | one corner: a new point or the one made before |
| PatchPoints.PointBase.CellPoints | pftools/solidtools.c:419-547 | after a cell every corner touched so far has exactly one bottom and one top point, and the cell has found its eight |
| PatchFill.FilledNext | pftools/solidtools.c:549-725 | writing at start_idx + p_write after the increment keeps every interval filled from its start, in order, and inside its bounds |
| PatchFill.FaceTable.constructor | pftools/solidtools.c:362-390 | an empty table over the slots made |
| PatchFill.FaceTable.Put | pftools/solidtools.c:549-725 | stores one face in the next row of its patch |
| PatchFill.FillSide | pftools/solidtools.c:575-725 | stores the face of one side if there is one, under the right patch |
| PatchFill.FillCell | pftools/solidtools.c:549-725 | stores exactly the faces counted for the cell |
| PatchClosed.OutlineCirculates | pftools/solidtools.c:549-725 | the two triangles of a face circulate around its four sides |
| PatchClosed.CellCirculates | pftools/solidtools.c:549-725 | the faces of a cell circulate as the box faces do |
| PatchClosed.NothingCirculates | pftools/solidtools.c:549-725 | for every mask every directed edge balances its reverse |
| PatchSolid.PrepareTable | pftools/solidtools.c:152-390 | counting, sorting and laying out fit together |
| PatchSolid.SolidCells | pftools/solidtools.c:413-735 | the fill pass over the mask stores the faces of every active cell, with the points of its corners |
| PatchSolid.TableIsGrouped | pftools/solidtools.c:549-725 | the finished table is the faces grouped by patch, in the order of the cells |
| PatchSolid.FinishedTable | pftools/solidtools.c:549-725 | every row is written once, every interval is full, and act_faces sums per patch to its count |
| PatchSolid.TableIsClosed | pftools/solidtools.c:549-725 | its triangles form a closed, consistently oriented surface |
| PatchSolid.PointsFit | pftools/solidtools.c:397-402 | there are at most two points for every corner of the grid |
| PatchDomain.KeysMatch | pftools/solidtools.c:152-253 | every face counted and stored is one of the solid, and its patch is the mark across it or, at the edge of the grid and at top and bottom, the number of its side |
| PatchDomain.SolidListed | pftools/solidtools.c:549-725 | every face of the solid is listed exactly once |
| PatchDomain.OutlineCuts | pftools/solidtools.c:549-725 | the two triangles of a face cut it counterclockwise from outside |
| PatchDomain.RowsAreFaces | pftools/solidtools.c:413-725 | the rows stored are the faces of the solid, cut where their points lie |
| PatchDomain.RowArea | pftools/solidtools.c:549-580 | twice the signed area in the plan of a row is 2 dx dy if it looks up, the negative if it looks down, and 0 else |
| PatchDomain.GroupedMultiset | pftools/solidtools.c:549-725 | grouping by patch keeps every row |
| PatchDomain.TableIntervals | pftools/solidtools.c:315-350 | every row lies in the interval of exactly one patch, the one with its value |
| PatchDomain.DirectionCount | pftools/solidtools.c:549-725 | what a patch counts for a direction is the number of its rows that look that way |
| PatchDomain.MakePatchySolid | pftools/solidtools.c:152-735 | for every non-negative mask with at most thirty user patches: the rows are the faces of the solid, each once, with its place in the plan, orientation, direction and patch, in the interval of that patch, which counts its rows by direction; points, patches, table and closed surface together |

## Left out

- Floating point: rounding, overflow and NaN are not modelled; arithmetic is over the reals, also where `extrap_TIN.c` keeps vertices as floats.
- PlaneFit.Extrapolate: stops when a pivot is zero, where the source ignores `info` and divides by zero.
- LinpackSolve.Sgesl: requires factors without a zero pivot, as the source's comments do; division by zero is not modelled.
- Blas.Saxpy: only unit strides, the only ones the solver uses; the branch for other increments is left out.
- Blas.Isamax: only unit strides, for the same reason.
- Blas.Sscal: only unit strides, for the same reason.
- Blas.Sdot: only unit strides, for the same reason.
- IntersectionList.List.AddIntersectionPoint: an entry may list any number of triangles; the fixed capacity and its message are left out.
- ProjectionMesh.Mesh.AddTin: the projection triangles at a mesh vertex are given.
- PrismDomain.WriteDomain: nodes have any number of faces, and the six nodes of a prism are required to differ; patch colours, the boundary file and the error message for a third sister are left out.
- PrismMesh.BoundaryIsClosed: is about edges modulo 2; orientation is stated face by face in `OutwardFacesAway`, since nothing makes the elements fit together in space.
- Triangulate.TriangulateTins: between its two loops a TIN is a value; that buffers are shared between TINs is not modelled.
- QuickSort.QuickSort: vertices are values where the source sorts pointers to them, so that two pointers to one vertex are not told apart; likewise the subgrids in arrays.
- MaskDomain.BuildMesh: the mesh before simplification; the Simplify library, option parsing (with its y spacing used for x at `pftools/pfmask-to-pfsol.cpp:406`), the patch lists of the solid file and VTK output are left out.
- UserGrid.ChooseBlocks: the cube root of the cells per process is a parameter, at least 1; with zero the source divides by zero.
- UserGrid.DistributeUserGrid: the starting block length is a parameter as in `ChooseBlocks`; numbers are unbounded, and the overflow of `nx * ny * nz` is not modelled.
- Pfb.LoadParflowB: subgrids inside the databox and numbers of 32 bits; the file is a sequence of bytes and the position has no width; writing one file for each process is left out.
- PfbRead.ReadParflowB: files laid out as the writer lays them out; truncated or malformed files are left out, as the source does not check for them.
- Weld.WeldSolids: needs at least one vertex; with none the source counts one and reads it.
- SigDiff.MSigDiff: shares its search with SigDiff and returns a value instead of a Tcl list.
- PatchDomain.MakePatchySolid: stops before output; a point is its place in the plan and whether it is at the bottom or the top, so its interpolated elevation, the count of patches in the header line, and the files written are left out.
- AddTriangleToProjectionMesh, ProjectionMeshTo3DMesh and the angle computations of projecttin.c.
- Reading and printing of text, Tcl commands, memory allocation failures and file opening failures.
- EnlargeBox, ComputeDomain, the cell-wise operations on databoxes, statistics and water table depths.
- The conversion between ASCII and binary solid files, which loses precision.
