# A verified model of a CPU triangle rasterizer

This project models the core of a small software renderer in Dafny. The renderer draws
triangle meshes into a frame buffer. The model covers these parts:

- **The dense matrix type** (`Matrix.h`, modules `Matrices`, `MatrixObjects` and `MatrixOperators`).
  - Row-major storage with bounds-checked element access and one-index access for vectors.
  - Construction from a fill value or an initializer list, and `resize`, which fixed-size matrices refuse.
  - Element-wise and scalar operators and the matrix product, each with its shape checks and its compound
    form.
  - `dot`, `cross`, `norm` and `normalize`.
  - Every `throw` of the source becomes an `Err` value of a `Result`. The operators that loop over the
    buffer are methods proved equal to a specification function, and the algebra is proved about those
    functions.
- **The transform helpers** (`Utils.cpp`, module `Utils`).
  - Homogeneous lift and divide.
  - The change-of-basis, translation, perspective and viewport matrices.
  - The signed point-to-line distance, barycentric coordinates and barycentric interpolation.
- **The half-edge triangle mesh** (`TriMesh.h`, `TriMesh.cpp`).
  - Module `MeshTypes` holds the records and the edge-pair helpers.
  - Module `MeshBuild` holds what `initializeHalfEdgeMesh` builds, as a fold, and `MeshShape` holds that
    structure in closed form.
  - Module `MeshWalks` holds the face and vertex walks.
  - Module `MeshNormals` holds `updateNormals` and `MeshSubdivision` holds Loop subdivision.
  - The class `TriMeshes.TriMesh` performs all of these in place, and each of its methods is proved
    equal to the matching function.
  - The shared pointers between vertices, faces and half-edges become integer indices into
    append-only arenas (sequences of records). The `halfEdges` container is a map keyed by the
    directed `(start, end)` pair.
- **The renderer** (`Renderer.h`, `Renderer.cpp`).
  - Module `Scenes` holds the immutable scene the renderer reads (camera, lights, surfaces with their
    materials and meshes), the composite transform and the lighting sum of `shading`.
  - Module `Raster` holds the rasterizer's candidate fragments, the depth test and the final write,
    as functions.
  - The class `Renderers.Renderer` holds the per-render maps and the frame buffer, and performs
    `renderForDisplay` step by step.
- **Image conversion** (`Image.h`, module `Images`): float-to-byte conversion, clearing to black and
  row-major byte packing.

Scalars (`double` and `float` in the source) are Dafny `real`s. `sqrt`, `pow`, `tan` and the value
of pi are not computed: they are fields of a `Math` record that every caller passes in. A
`float`-to-`unsigned char` cast is modelled as truncation of a value already clamped to [0, 255].

## Model

| member | source | states |
|---|---|---|
| Matrices.At | Matrix.h:226-232 | `m(i, j)` is `OutOfRange` exactly when i or j is outside the shape; otherwise it is the buffer entry at the row-major offset `i * cols + j` |
| Matrices.Update | Matrix.h:234-237 | a write through `m(i, j)` fails with `OutOfRange` exactly when the pair is outside the shape; otherwise the matrix keeps its shape and C++ type |
| Matrices.UpdateThenAt | Matrix.h:226-237 | after writing v at (i, j), reading (i, j) gives v and reading any other in-range pair gives the old entry |
| Matrices.AtVec | Matrix.h:397-403 | one-index read is `NotAVector` unless `Cols == 1`, and then it is the read of element (i, 0) |
| Matrices.UpdateVec | Matrix.h:389-395 | one-index write is `NotAVector` unless `Cols == 1`, and then it is the write of element (i, 0) |
| Matrices.Filled | Matrix.h:206-214 | the value constructor gives a valid Rows x Cols matrix with every element equal to the initial value |
| Matrices.FromList | Matrix.h:451-457 | the initializer list is refused with `WrongInitializerSize` exactly when it does not hold Rows * Cols values; otherwise element (i, j) is value `i * Cols + j` |
| Matrices.ResizeBuffer | Matrix.h:466 | the buffer resize has the new length, keeps the old prefix and pads with the fill value |
| Matrices.Resize | Matrix.h:459-468 | `resize` is refused with `FixedSize` exactly for a fixed-size matrix; otherwise the shape is rows x cols with a buffer of rows * cols elements (also the fill form, Matrix.h:494-503) |
| Matrices.Elementwise | Matrix.h:274-284 | a same-shape element-wise result keeps the left operand's shape and type |
| Matrices.CheckedElementwise | Matrix.h:274-309 | `+`, `-` and `cwiseProduct` throw `WrongSizes` exactly when the shapes differ; otherwise the result keeps the shape and type (`cwiseProduct` at Matrix.h:484-493) |
| Matrices.ElementwiseAt | Matrix.h:274-309 | entry (i, j) of an element-wise result is the operator applied to the two entries (i, j) |
| Matrices.AddThenSubtract | Matrix.h:274-309 | (A + B) - B == A |
| Matrices.ScalarMap | Matrix.h:311-349 | a scalar operator keeps the shape and type |
| Matrices.ScalarMapAt | Matrix.h:311-349 | entry (i, j) of a scalar operator's result is the scalar operation on entry (i, j) |
| Matrices.ScalarInverses | Matrix.h:311-349 | dividing by a nonzero s undoes multiplying by s, and subtracting s undoes adding s |
| Matrices.Product | Matrix.h:239-262 | the product throws `WrongSizes` exactly when the left column count differs from the right row count; otherwise its C++ type is Rows x RhsCols |
| Matrices.ProductEntryAt | Matrix.h:247-259 | every entry of the product is the sum the triple loop accumulates, and 0 outside the operands |
| Matrices.ProductAt | Matrix.h:239-262 | when the inner dimension is nonzero (or both operands are fixed-size) the product is rows x rhs.cols and entry (i, j) is the sum over k of A(i, k) B(k, j) |
| Matrices.ProductShape | Matrix.h:247-251 | a compatible product is rows x rhs.cols unless its inner dimension is 0, and always so for two fixed-size operands |
| Matrices.Dot | Matrix.h:351-361 | `dot` throws `NotAVector` exactly when `Cols != 1` |
| Matrices.Dot3 | Matrix.h:351-361 | the dot of two 3-vectors is the sum of the three products |
| Matrices.Cross | Matrix.h:377-387 | `cross` is refused unless the operand is a 3x1 vector, and its result is a 3x1 vector |
| Matrices.CrossComponents | Matrix.h:383-385 | the three components of the cross product |
| Matrices.CrossIsOrthogonal | Matrix.h:377-387 | the cross product has zero dot with both operands |
| Matrices.Normalized | Matrix.h:475-481 | `normalize() const` keeps the shape and type and returns a scalar multiple of its input |
| MatrixObjects.Matrix.constructor | Matrix.h:286-288 | a matrix object built from a value (the copy constructor) holds that value |
| MatrixObjects.Matrix.Read | Matrix.h:226-232 | the object's read is the value-level `At` |
| MatrixObjects.Matrix.Write | Matrix.h:234-237 | the object's write changes it to the value-level `Update` when in range, and otherwise throws `OutOfRange` and changes nothing |
| MatrixObjects.Matrix.ReadVec | Matrix.h:397-403 | the object's one-index read is the value-level `AtVec` |
| MatrixObjects.Matrix.WriteVec | Matrix.h:389-395 | the object's one-index write is the value-level `UpdateVec`, and a refused write changes nothing |
| MatrixObjects.Matrix.Resize | Matrix.h:459-468 | the object is resized in place exactly as `Resize` says, and a refused resize changes nothing |
| MatrixObjects.Matrix.Assign | Matrix.h:290-297 | after `operator=` the object holds the right-hand side |
| MatrixOperators.ElementwiseOp | Matrix.h:274-309 | the copy-then-loop operator returns `CheckedElementwise` |
| MatrixOperators.ScalarOperator | Matrix.h:311-349 | the copy-then-loop scalar operator returns `ScalarMap` |
| MatrixOperators.Multiply | Matrix.h:239-262 | the triple loop returns `Product`, including the error case |
| MatrixOperators.DotProduct | Matrix.h:351-361 | the accumulating loop returns `Dot`, including the error case |
| MatrixOperators.CompoundAssign | Matrix.h:439-449 | `+=` and `-=` with a matrix leave the plain operator's result in the object, and leave the object unchanged when the shapes differ |
| MatrixOperators.CompoundAssignScalar | Matrix.h:411-437 | `*=`, `/=`, `+=` and `-=` with a scalar leave the plain operator's result in the object |
| Utils.Lift | Utils.cpp:60-62 | `make4dHomoCoordPoint` gives a 4-vector whose w is 1 |
| Utils.HomoDivide | Utils.cpp:7-9 | `homoDivideVector4d` gives a 3-vector |
| Utils.DivideAfterLift | Utils.cpp:7-9 | dividing a lifted point gives the point back |
| Utils.LiftAfterDivide | Utils.cpp:7-9 | lifting a divided point gives the homogeneous point scaled by 1/w, the same projective point |
| Utils.ChangeCoordSys | Utils.cpp:10-23 | the change-of-basis matrix is a 4x4 matrix |
| Utils.ChangeCoordSysMaps | Utils.cpp:10-23 | the change-of-basis matrix sends the lifted p to the lifted (u.p, v.p, w.p) |
| Utils.TranslateMatrix | Utils.cpp:24-33 | the translate matrix is a 4x4 matrix |
| Utils.MakeTranslateMatrix | Utils.cpp:24-33 | the diagonal loop builds `TranslateMatrix` |
| Utils.TranslateMaps | Utils.cpp:24-33 | the translate matrix sends the lifted p to the lifted p - t |
| Utils.Perspective | Utils.cpp:34-49 | the perspective matrix, defined only when r != l, t != b and n != f, is a 4x4 matrix |
| Utils.PerspectiveKeepsDepthInW | Utils.cpp:47 | the projected w is the input z |
| Utils.PerspectiveApplies | Utils.cpp:34-49 | the projection of (x, y, z, 1), row by row |
| Utils.PerspectiveDepthRange | Utils.cpp:45-46 | after the divide, the near plane lands at depth 1 and the far plane at depth -1 |
| Utils.PerspectiveEdges | Utils.cpp:41-42 | at the near plane, the left and right frustum edges land at x = -1 and x = 1 |
| Utils.Viewport | Utils.cpp:50-59 | the viewport matrix is a 4x4 matrix |
| Utils.ViewportMaps | Utils.cpp:50-59 | the viewport sends x to (nx/2) x + (nx - 1)/2 and y to (ny/2) y + (ny - 1)/2, and keeps z and w |
| Utils.ViewportEdges | Utils.cpp:52-53 | NDC x = -1 goes to -1/2 and x = 1 to nx - 1/2 |
| Utils.ApplyIsProduct | Renderer.cpp:37-38 | a 4x4 matrix times a 4-vector through the general product is the row-by-row application |
| Utils.ApplyComposes | Renderer.cpp:31 | applying a product of two 4x4 matrices is applying the right factor and then the left |
| Utils.PointLineDistanceOnEndpoints | Utils.cpp:64-66 | the point-line distance is 0 at both points that define the line |
| Utils.PointLineDistanceIgnoresZ | Utils.cpp:64-66 | the point-line distance reads only the x and y coordinates |
| Utils.TriangleAreaCyclic | Utils.cpp:72-74 | the three denominators of `computeBaryCoord` are one signed area |
| Utils.BaryCoord | Utils.cpp:67-76 | the barycentric coordinates of a non-degenerate triangle form a 3-vector |
| Utils.BaryCoordSumsToOne | Utils.cpp:67-76 | the three coordinates sum to 1 for every point |
| Utils.BaryCoordAtVertices | Utils.cpp:67-76 | at v0, v1 and v2 the coordinates are the three unit vectors |
| Utils.BaryCoordOverArea | Utils.cpp:72-74 | each coordinate is a distance over the one signed area |
| Utils.BaryCoordWeighs | Utils.cpp:67-76 | the corners weighted by a point's coordinates give back the point's x and y |
| Utils.LinearInterpolate | Utils.cpp:77-88 | both `linearInterpolate` overloads give a 3-vector |
| Utils.LinearInterpolateAt | Utils.cpp:77-88 | component k is b0 v0[k] + b1 v1[k] + b2 v2[k] |
| Utils.LinearInterpolateAtUnit | Utils.cpp:77-88 | a unit weight vector returns the matching corner |
| Utils.InterpolateBaryCoordReproduces | Utils.cpp:67-88 | interpolating the corners with a point's barycentric coordinates gives back its x and y |
| MeshTypes.OppositeInvolution | TriMesh.cpp:87-89 | `getOppositeEdgePair` applied twice gives the edge back, and an edge is its own opposite exactly when it is a loop |
| MeshTypes.EdgePairsChain | TriMesh.cpp:81-85 | each edge of a face ends where the next one starts, and the index is taken modulo 3 |
| MeshTypes.EdgePairsOfFace | TriMesh.cpp:81-85 | the three edge pairs of a face are (a, b), (b, c) and (c, a) |
| MeshTypes.NewVertex | TriMesh.cpp:223-227 | a vertex built from a position has no half-edge, no normal and index -1 |
| MeshBuild.AddFace | TriMesh.cpp:58 | pushing a face appends a blank face record and lists it, and changes nothing else |
| MeshBuild.CreateEdge | TriMesh.cpp:60 | creating a half-edge appends a blank record and maps the directed edge to it, overwriting any earlier entry |
| MeshBuild.CreateEdges | TriMesh.cpp:59-61 | after the first inner loop every edge of the face is a key of the map, earlier keys stay, and the arena grows by one record per iteration |
| MeshBuild.LinkEdges | TriMesh.cpp:62-75 | the second inner loop leaves the map, the face list and all sizes unchanged |
| MeshBuild.BuildFace | TriMesh.cpp:57-76 | one face triple adds one listed face and three half-edge records |
| MeshBuild.BuildFaces | TriMesh.cpp:57-76 | after t face triples there are t new listed faces and 3 t new half-edge records, and every map value names a record |
| MeshBuild.Cleared | TriMesh.cpp:55-56 | clearing leaves an empty face list and an empty map, so every map value trivially names a record |
| MeshShape.LinkEdgeArena | TriMesh.cpp:63-74 | one link rebuilds the edge's record (face, start vertex, next), makes it and the reverse edge's record each other's opposite when the reverse edge is a key, and changes no other record |
| MeshShape.BuiltMap | TriMesh.cpp:55-61 | for any face list, there is one face per triple, and the map's keys are exactly the directed edges of the faces, each holding the record created last for it |
| MeshShape.MapAtDistinct | TriMesh.cpp:57-61 | when no directed edge repeats, edge k maps to new record k, and distinct keys hold distinct records |
| MeshShape.BuiltFace | TriMesh.cpp:57-69 | when no directed edge repeats, face t points at the record of its edge (c, a), and its three records start at a, b and c, point at the face and follow one another in a 3-cycle |
| MeshShape.BuiltOpposite | TriMesh.cpp:70-74 | when no directed edge repeats, a record's opposite is NULL exactly when no face has the reverse edge; otherwise opposites are mutual and the opposite starts where the record ends |
| MeshShape.BuiltVertex | TriMesh.cpp:67-68 | every vertex points at the last new half-edge leaving it, and keeps its old half-edge only when none leaves it |
| MeshWalks.FanSizeUnique | TriMesh.cpp:156-164 | a walk around a vertex closes after one number of turns only |
| MeshWalks.FanFaces | TriMesh.cpp:201-209 | `getVertexFaces` lists, in walk order, the face of each half-edge met turning by `next.next.opposite` |
| MeshWalks.FanVertices | TriMesh.cpp:156-164 | `getVertexVertices` lists, in walk order, the start vertex of the next half-edge of each half-edge met |
| MeshWalks.FaceCorners | TriMesh.cpp:194-200 | `getFaceVertices` lists the start vertices of the face's half-edge and of the two after it |
| MeshWalks.BuiltOrbit | TriMesh.cpp:156-164 | in a built mesh, turning from a new half-edge only reaches new half-edges leaving the same vertex, until it falls off a boundary |
| MeshWalks.BuiltFan | TriMesh.cpp:201-209 | on a closed fan, every face listed is a mesh face with the vertex as a corner, and every vertex listed ends an edge that leaves it |
| MeshWalks.BuiltFaceCorners | TriMesh.cpp:194-200 | on a built mesh `getFaceVertices` of face (a, b, c) gives (c, a, b), because the face points at the half-edge of its last edge |
| MeshNormals.FaceNormal | TriMesh.cpp:174-176 | a face normal is a 3-vector along the cross product of the two edges from the first corner |
| MeshNormals.FaceNormalOrthogonal | TriMesh.cpp:174-176 | the face normal is orthogonal to both edges it was built from |
| MeshNormals.FaceNormalRotation | TriMesh.cpp:173-176 | rotating the corners, as `getFaceVertices` does on a built mesh, gives the same normal |
| MeshNormals.Centroid | TriMesh.cpp:177-181 | the face position is a 3-vector |
| MeshNormals.CentroidIsMean | TriMesh.cpp:177-182 | the face position is the componentwise mean of the three corners, in any rotation |
| MeshNormals.WithFaceNormals | TriMesh.cpp:172-183 | the face loop changes only face records |
| MeshNormals.FaceNormalListed | TriMesh.cpp:172-183 | after the face loop, every listed face holds the normal and centroid of its corners |
| MeshNormals.FaceNormalUnlisted | TriMesh.cpp:172-183 | a face record that is not listed is untouched by the face loop |
| MeshNormals.SumFaceNormals | TriMesh.cpp:186-189 | the sum of the face normals is a 3-vector |
| MeshNormals.VertexNormal | TriMesh.cpp:184-191 | a vertex normal is a 3-vector along the sum of the normals of the faces of its fan |
| MeshNormals.VertexNormalsAt | TriMesh.cpp:184-191 | after k steps of the vertex loop the first k vertices have their fan normal and keep everything else, and the rest are untouched |
| MeshNormals.NormalsKeepStructure | TriMesh.cpp:165-193 | `updateNormals` keeps the half-edges, the face list, the map and the sizes of the lists |
| MeshNormals.NormalsFaceListed | TriMesh.cpp:172-183 | after `updateNormals` each listed face carries its normal and centroid |
| MeshNormals.NormalsFaceUnlisted | TriMesh.cpp:172-183 | `updateNormals` leaves face records outside the face list as they were |
| MeshNormals.NormalsVertices | TriMesh.cpp:184-191 | after `updateNormals` every vertex keeps its position, half-edge and index, and its normal is taken from the face normals the face loop has just set |
| MeshSubdivision.EdgePoint | TriMesh.cpp:104-106 | an edge point is a 3-vector |
| MeshSubdivision.EdgePointComponents | TriMesh.cpp:104-106 | componentwise the edge point is 3/8 u + 3/8 v + 1/8 w + 1/8 x |
| MeshSubdivision.EdgePointShared | TriMesh.cpp:101-111 | either half-edge of an edge gives the same edge point |
| MeshSubdivision.EdgePointAffine | TriMesh.cpp:104-106 | the edge weights sum to 1: the edge point of four copies of one point is that point |
| MeshSubdivision.CentreWeight | TriMesh.cpp:134-138 | the weight a vertex keeps is 7/16 with three neighbours and 5/8 otherwise, and all the weights sum to 1 |
| MeshSubdivision.SmoothSum | TriMesh.cpp:138-141 | the partial sum of the smoothing loop is a 3-vector |
| MeshSubdivision.SmoothedComponents | TriMesh.cpp:132-142 | coordinate c of a smoothed vertex is (1 - n beta) times its own coordinate plus beta times the sum of its neighbours' coordinates |
| MeshSubdivision.SmoothedFlat | TriMesh.cpp:132-142 | a vertex whose neighbours all sit where it does stays put |
| MeshSubdivision.AroundNext | TriMesh.cpp:113-114 | on a triangle, the successor of the i-th half-edge is the (i + 1)-th modulo 3, and the three are distinct |
| MeshSubdivision.MarkEdge | TriMesh.cpp:99-112 | one marking step keeps the emitted triples and every earlier mark, and marks the half-edge |
| MeshSubdivision.MarkAround | TriMesh.cpp:98-114 | the marking do-while marks the face's half-edges and keeps earlier marks |
| MeshSubdivision.EmitAround | TriMesh.cpp:115-121 | the emitting do-while appends one triple per step and changes nothing else |
| MeshSubdivision.OneVertexPerEdge | TriMesh.cpp:101-111 | two marked half-edges share a new vertex only when they are the same half-edge or twins |
| MeshSubdivision.MarkEdgeSound | TriMesh.cpp:101-111 | marking keeps the map invariant (each marked half-edge and its twin carry the same new vertex, the i-th made vertex has index base + i), and only appends |
| MeshSubdivision.ChildTriple | TriMesh.cpp:115-125 | a corner child starts at a new vertex and passes through the face's next corner |
| MeshSubdivision.FaceTriples | TriMesh.cpp:115-125 | each face emits exactly four triples |
| MeshSubdivision.FaceTriplesEmitted | TriMesh.cpp:115-125 | the four triples appended are the three corner children and the centre child of the face |
| MeshSubdivision.SplitFacesDone | TriMesh.cpp:96-126 | after k faces the loop has four triples per face naming existing vertices, every half-edge of those faces is marked, and the map invariant holds |
| MeshSubdivision.EdgeVertexShared | TriMesh.cpp:101-111 | seen from the twin, the edge's ends swap and so do the far corners, so both half-edges give the same point |
| MeshSubdivision.NewVertices | TriMesh.cpp:107-108 | one new vertex is appended per half-edge that made one |
| MeshSubdivision.NewVerticesSnoc | TriMesh.cpp:107-108 | marking one more half-edge appends one vertex at its edge point, with its index set |
| MeshSubdivision.Neighbours | TriMesh.cpp:133 | the neighbours of an original vertex are a nonempty list of vertices with 3-vector positions |
| MeshSubdivision.SubdividedShape | TriMesh.cpp:91-146 | after subdivision there are four triples per old face and one vertex per old vertex plus one per edge, every triple names a vertex, and every vertex's index is its place in the list |
| MeshSubdivision.SubdividedFace | TriMesh.cpp:115-125 | triple 4 j + i is child i of face j, named by the new vertices of its half-edges |
| MeshSubdivision.SubdividedEdge | TriMesh.cpp:101-111 | every half-edge of every face has a new vertex shared with its twin, with an index past the old vertices, at the edge point of its edge |
| MeshSubdivision.SubdividedOriginal | TriMesh.cpp:132-145 | an original vertex changes only its position, which is the smoothed point of its neighbours computed from the positions before subdivision |
| TriMeshes.LoadedVertices | TriMesh.cpp:20-24 | the reading loop gives each vertex its index in the list, a 3-vector position, no half-edge and no normal, and at most one vertex per record |
| TriMeshes.LoadedFaces | TriMesh.cpp:25-28 | the reading loop gives at most one face per record |
| TriMeshes.LoadedFacesShifted | TriMesh.cpp:26 | an `f 1 2 3` record becomes the triple (0, 1, 2): the file's 1-based indices are shifted down |
| TriMeshes.TriMesh.constructor | TriMesh.cpp:9-35 | a mesh read from records holds the loaded faces, and its structure is the built structure with normals |
| TriMeshes.TriMesh.ReadRecords | TriMesh.cpp:13-32 | the reading loop leaves the loaded vertices and faces and changes no other field |
| TriMeshes.TriMesh.InitializeHalfEdgeMesh | TriMesh.cpp:51-79 | nothing changes when the structure is current; otherwise the structure is rebuilt from the face triples and normals are recomputed |
| TriMeshes.TriMesh.BuildFaces | TriMesh.cpp:57-76 | the outer loop leaves the structure `MeshBuild.BuildFaces` describes |
| TriMeshes.TriMesh.BuildFace | TriMesh.cpp:58-75 | one iteration leaves the structure `MeshBuild.BuildFace` describes |
| TriMeshes.TriMesh.LinkHalfEdge | TriMesh.cpp:63-74 | one link leaves the structure `MeshBuild.LinkEdge` describes |
| TriMeshes.TriMesh.UpdateNormals | TriMesh.cpp:165-193 | the structure is rebuilt first when it is not current; nothing more happens when normals are current; otherwise the structure becomes `Normals` of it, and `normalUpdated` is set |
| TriMeshes.TriMesh.ComputeNormals | TriMesh.cpp:172-191 | the two loops leave `Normals` of the structure |
| TriMeshes.TriMesh.FaceNormals | TriMesh.cpp:172-183 | the face loop leaves `WithFaceNormals` of the structure |
| TriMeshes.TriMesh.SetFaceNormal | TriMesh.cpp:173-182 | one iteration sets the face's normal and position and changes nothing else |
| TriMeshes.TriMesh.VertexNormals | TriMesh.cpp:184-191 | the vertex loop leaves `WithVertexNormals` of the structure |
| TriMeshes.TriMesh.SetVertexNormal | TriMesh.cpp:185-190 | one iteration sets the vertex's normal and changes nothing else |
| TriMeshes.TriMesh.GetVertexFaces | TriMesh.cpp:201-209 | the do-while returns the faces of the closed fan, in walk order |
| TriMeshes.TriMesh.GetVertexVertices | TriMesh.cpp:156-164 | the do-while returns the neighbours on the closed fan, in walk order |
| TriMeshes.TriMesh.GetFaceVertices | TriMesh.cpp:194-200 | returns the face's three corners from its half-edge |
| TriMeshes.TriMesh.Subdivision | TriMesh.cpp:91-146 | after subdivision the triples and vertices are those `SubdividedFaces` and `SubdividedVertices` give for the current structure, the half-edges stay, and both flags are cleared |
| TriMeshes.TriMesh.SubdivideStructure | TriMesh.cpp:93-145 | the same for a structure that is already current |
| TriMeshes.TriMesh.SplitFaceLoop | TriMesh.cpp:96-126 | the loop over the faces leaves the new-vertex map, the new triples and the appended vertices that `Marked` gives |
| TriMeshes.TriMesh.SplitFaceOf | TriMesh.cpp:97-125 | one face's iteration is `SplitFace` |
| TriMeshes.TriMesh.EmitFace | TriMesh.cpp:115-125 | the emitting do-while and the centre triple append `FaceTriples` |
| TriMeshes.TriMesh.MarkHalfEdge | TriMesh.cpp:99-112 | one marking step is `MarkEdge`, and it appends the new vertex at its edge point |
| TriMeshes.TriMesh.SmoothedPositions | TriMesh.cpp:132-142 | every new position is the smoothed point of the vertex's neighbours, computed before any position is written |
| TriMeshes.TriMesh.SmoothedPosition | TriMesh.cpp:133-141 | one iteration is `Smoothed` over `getVertexVertices`, with beta from the neighbour count |
| TriMeshes.TriMesh.WeightedSum | TriMesh.cpp:138-141 | the inner loop accumulates `SmoothSum` |
| TriMeshes.TriMesh.CommitPositions | TriMesh.cpp:143-145 | the last loop writes the new positions into the original vertices only, leaving the appended vertices as made |
| TriMeshes.TriMesh.GetVertexNumber | TriMesh.cpp:148-150 | returns the number of vertices |
| TriMeshes.TriMesh.GetFaceNumber | TriMesh.cpp:152-154 | returns the number of listed faces |
| TriMeshes.SubdividedAre | TriMesh.cpp:130-145 | the list the last loop leaves, with each original at its smoothed position and the appended vertices kept, is `SubdividedVertices` |
| TriMeshes.CornerSumIsCentroid | TriMesh.cpp:177-181 | summing the corners from zero and dividing by 3 gives the centroid |
| Images.ByteColor | Image.h:28-30 | a byte colour is a well-formed 3x1 vector |
| Images.Black | Image.h:40 | black is a colour, a 3-vector |
| Images.Clamp255 | Image.h:24-27 | the two clamps leave a value between 0 and 255 |
| Images.ToChannelSaturates | Image.h:23-30 | an intensity at or below 0 converts to byte 0, one at or above 1 to byte 255 |
| Images.ToChannelTruncates | Image.h:28-30 | inside [0, 1] the cast to `unsigned char` keeps the integer part of 255 times the intensity |
| Images.ToChannelMonotone | Image.h:23-30 | a brighter intensity never converts to a smaller byte |
| Images.ToChannelOfByte | Image.h:23-30 | the intensity k / 255 converts back to byte k |
| Images.ConvertPixel | Image.h:23-30 | a converted pixel is a 3x1 byte colour |
| Images.Converted | Image.h:18-34 | the converted image has the input's size, and each of its pixels is the input's pixel converted |
| Images.ConvertFloatImage2Int | Image.h:18-34 | the nested loops fill a fresh image with exactly the converted image |
| Images.ClearImage | Image.h:37-43 | the nested loops make every pixel black and keep the image's size |
| Images.RawBytes | Image.h:48-49 | the raw data holds three bytes per pixel |
| Images.RawBytesAt | Image.h:52-55 | byte `(i cols + j) 3 + k` is channel k of pixel (i, j) |
| Images.GetRawData | Image.h:48-59 | the nested loops fill a fresh array with exactly the raw data |
| Scenes.VertexKeys | Renderer.h:51-54 | a vertex key is in the set exactly when it names a vertex of some surface |
| Scenes.FaceKeys | Renderer.h:55 | a face key is in the set exactly when it names a listed face of some surface |
| Scenes.Basis | Renderer.cpp:12-15 | the camera basis u, v, w are 3-vectors |
| Scenes.ViewMatrix | Renderer.cpp:16-17 | `mCam` is a 4x4 matrix |
| Scenes.PerspectiveMatrix | Renderer.cpp:19-25 | `mPer` is a 4x4 matrix |
| Scenes.Composite | Renderer.cpp:27-31 | `m` is a 4x4 matrix |
| Scenes.CompositeApplies | Renderer.cpp:16-31 | applying `m` is applying the translation, the change of basis, the perspective and the viewport in turn |
| Scenes.CompositeDepth | Renderer.cpp:10-33 | the fourth coordinate of a transformed point is its depth `w . (p - eye)` along the camera's w axis |
| Scenes.Ambient | Renderer.cpp:62-63 | the ambient term is a colour |
| Scenes.LightDirection | Renderer.cpp:65 | the light direction is a 3-vector |
| Scenes.AddLight | Renderer.cpp:64-73 | one light's step yields a colour |
| Scenes.ShadeLights | Renderer.cpp:62-73 | the colour after any number of lights is a colour |
| Scenes.Shaded | Renderer.cpp:58-75 | `shading` returns a colour |
| Scenes.Shade | Renderer.cpp:58-75 | the loop over the lights computes `Shaded` |
| Scenes.ShadingWithoutLights | Renderer.cpp:62-63 | with no lights the colour is half the ambient coefficient, channel by channel |
| Scenes.AddLightChannel | Renderer.cpp:65-72 | channel k of a light's step adds kd_k I_k times the diffuse angle and ks_k I_k times the specular angle raised to the Phong exponent |
| Scenes.ShadingAddsLight | Renderer.cpp:64-73 | adding a light to the list adds exactly that light's diffuse and specular terms to every channel |
| Scenes.ShadeLightsPrefix | Renderer.cpp:64-73 | the colour after n lights depends only on the first n lights |
| Scenes.LightBehindDarkens | Renderer.cpp:66-67 | the diffuse angle is not clamped: a light behind the surface with no specular part darkens every channel it lights |
| Scenes.ProcessedMap | Renderer.cpp:35-38 | `processedVertexPositions` has a 4-vector for every vertex of the scene and no other key |
| Scenes.VertexColor | Renderer.cpp:39-45 | a vertex colour is a colour |
| Scenes.FaceColor | Renderer.cpp:47-54 | a face colour is a colour |
| Scenes.VertexColorMap | Renderer.cpp:35-46 | `vertexColors` has a colour for every vertex of the scene and no other key |
| Scenes.FaceColorMap | Renderer.cpp:47-55 | `faceColors` has a colour for every listed face of the scene and no other key |
| Raster.Ceil | Renderer.cpp:89 | `std::ceil`: the least integer at or above x |
| Raster.Min3 | Renderer.cpp:88 | the minimum of three values is one of them and is at most each |
| Raster.Max3 | Renderer.cpp:89 | the maximum of three values is one of them and is at least each |
| Raster.BoundingBox | Renderer.cpp:88-91 | the box contains the three corners and is at most 2 wider than their spread |
| Raster.InsideTest | Renderer.cpp:98-103 | the loop sets `inside` exactly when every coordinate is at least -0.01 and coordinate 1 is at most 1.01 |
| Raster.InsideTriangle | Renderer.cpp:98-104 | every point of the closed triangle passes the test |
| Raster.InsideBounded | Renderer.cpp:98-103 | a point that passes has coordinates at most 1.02, 1.01 and 1.02 |
| Raster.InsideUncheckedCorner | Renderer.cpp:100 | a point whose coordinate 0 exceeds 1.01 still passes, because only coordinate 1 is bounded above |
| Raster.PixelFragment | Renderer.cpp:110-132 | the fragment of pixel (x, y) sits at row `height - y`, column x, and carries the interpolated Gouraud colour, the face colour or, under Phong, the interpolated position, normal and settings, as its policy asks |
| Raster.PixelPoint | Renderer.cpp:97 | the pixel's screen point is a 3-vector |
| Raster.Corners | Renderer.cpp:84 | a listed face has three corners, all vertices of the mesh |
| Raster.ScreenCorner | Renderer.cpp:85-87 | a corner's divided position is a 3-vector |
| Raster.ViewOf | Renderer.cpp:84-131 | the view of a face reads its corners' divided positions, and the face is clipped or has a nonzero area |
| Raster.ColumnPlaced | Renderer.cpp:96-135 | every candidate of a column lands at its pixel's cell and is ready for its colour |
| Raster.BoxPlaced | Renderer.cpp:95-137 | the same for every column of a box inside the image |
| Raster.FacePlaced | Renderer.cpp:88-137 | the same for every face, clipped or drawn |
| Raster.SurfacePlaced | Renderer.cpp:83-138 | the same for the first k faces of a surface |
| Raster.ScenePlaced | Renderer.cpp:81-139 | every fragment the scene offers sits at its pixel's cell, in a column from 0 to `width - 2` and a row from the bottom up |
| Raster.DepthFoldConcat | Renderer.cpp:81-139 | meeting two lists of candidates in turn is meeting their concatenation, so the nested loops can be cut anywhere |
| Raster.DepthFoldSingle | Renderer.cpp:107-134 | meeting a single candidate is one depth step |
| Raster.DepthFoldSettles | Renderer.cpp:107-134 | after the depth test a pixel has a fragment and a depth exactly when some candidate is at it; its depth is the greatest offered there, and its fragment that of the last candidate at that depth |
| Raster.SettledOther | Renderer.cpp:107-134 | a candidate at another pixel leaves what pixel p holds correct |
| Raster.SettledKept | Renderer.cpp:107-108 | a candidate behind the stored depth is dropped and what the pixel holds stays correct |
| Raster.SettledReplaced | Renderer.cpp:133-134 | a candidate at or above the stored depth replaces the fragment and the depth, and what the pixel holds stays correct |
| Raster.DepthFoldPlaced | Renderer.cpp:107-134 | the two maps have the same pixels, and every stored fragment is a candidate's fragment at its pixel, so it is placed as the candidates are |
| Raster.FragmentColor | Renderer.cpp:180-193 | the colour written for a fragment is a colour |
| Raster.CellColor | Renderer.cpp:178-194 | a cell's colour is a colour |
| Raster.Resolved | Renderer.cpp:174-195 | the frame buffer is a height x width float image |
| Raster.ResolvedCell | Renderer.cpp:174-195 | cell (r, c) holds the colour of the fragment of pixel (c, height - r), black if none |
| Renderers.VerticesInOrderSpec | Renderer.cpp:35-46 | the vertex loop has written exactly the vertices before its current position, each with its value |
| Renderers.FacesInOrderSpec | Renderer.cpp:47-55 | the face loop has written exactly the listed faces before its current position, each with its value |
| Renderers.VerticesAllInOrder | Renderer.cpp:35-46 | after the last object the vertex loop has written the whole map |
| Renderers.FacesAllInOrder | Renderer.cpp:47-55 | after the last object the face loop has written the whole map |
| Renderers.MapsOf | Renderer.cpp:35-55 | the maps of `processVertices` hold every vertex transformed and shaded, and every listed face shaded |
| Renderers.Divided | Renderer.cpp:77-80 | the first loop of `rasterize` keeps the keys and gives 3-vectors |
| Renderers.DividedAt | Renderer.cpp:77-80 | each divided position is the homogeneous divide of the processed one |
| Renderers.RenderCaches | Renderer.cpp:76-87 | the maps of a render are ready for `rasterize` under any policy |
| Renderers.RenderedPlaced | Renderer.cpp:76-140 | after a render the two maps have the same pixels, and every fragment sits at its pixel's cell and is ready for its colour |
| Renderers.RenderedPixel | Renderer.cpp:104-134 | after a render a pixel holds the nearest candidate offered there (greatest depth), the last of equals, and has a fragment exactly when a face covers it |
| Renderers.ProcessedCaches | Renderer.cpp:163-169 | what `processVertices` leaves from cleared colour maps is what `rasterize` reads in a render, whatever divided positions were stored before |
| Renderers.CellOfKey | Renderer.cpp:181-191 | cell k is cell (i, j) exactly when its pixel is that cell's pixel |
| Renderers.ResolvedCells | Renderer.cpp:173-195 | the frame buffer holds each in-frame fragment's colour at its cell and black where no fragment is |
| Renderers.Renderer.constructor | Renderer.cpp:141-145 | a new renderer holds the scene, flat shading, an empty frame buffer and empty maps |
| Renderers.Renderer.GetShadingPolicy | Renderer.cpp:146-148 | returns the policy |
| Renderers.Renderer.SetShadingPolicy | Renderer.cpp:149-151 | stores any value as the policy |
| Renderers.Renderer.PrepareMatrices | Renderer.cpp:10-33 | sets `m` to `Composite` of the main camera |
| Renderers.Renderer.PerspectiveOf | Renderer.cpp:19-25 | computes `PerspectiveMatrix` |
| Renderers.Renderer.CameraMatrix | Renderer.cpp:11-17 | computes `ViewMatrix` |
| Renderers.Renderer.ProcessVertices | Renderer.cpp:34-57 | every vertex's transformed position is written; every vertex's colour under Gouraud shading, every listed face's colour under flat shading; other entries are kept |
| Renderers.Renderer.ProcessObjects | Renderer.cpp:35-56 | the object loop writes the given complete maps over the old ones |
| Renderers.Renderer.ObjectLoop | Renderer.cpp:35-56 | after the object loop, every object's entries are written in loop order |
| Renderers.Renderer.ProcessObject | Renderer.cpp:36-55 | one object's step writes its vertices and, under flat shading, its faces |
| Renderers.Renderer.ProcessSurface | Renderer.cpp:36-46 | the vertex loop of one object writes its vertices' entries |
| Renderers.Renderer.ProcessVertex | Renderer.cpp:37-45 | one vertex's position and, under Gouraud shading, colour are written |
| Renderers.Renderer.ColorSurfaceFaces | Renderer.cpp:47-55 | the face loop of one object writes its listed faces' colours |
| Renderers.Renderer.ColorFace | Renderer.cpp:48-54 | one face's colour is written |
| Renderers.Renderer.Rasterize | Renderer.cpp:76-140 | the divided positions are written, then the buffers become the depth test over the scene's candidates from their old contents |
| Renderers.Renderer.DivideVertices | Renderer.cpp:77-80 | the first loop of `rasterize` writes every divided position |
| Renderers.Renderer.DivideVertex | Renderer.cpp:78-79 | one divided position is written |
| Renderers.Renderer.DrawScene | Renderer.cpp:81-139 | the object loop meets the scene's candidates |
| Renderers.Renderer.DrawSurface | Renderer.cpp:83-138 | the face loop meets one surface's candidates |
| Renderers.Renderer.DrawFace | Renderer.cpp:84-137 | the box, the clipping test and the pixel loops meet one face's candidates |
| Renderers.Renderer.DrawColumn | Renderer.cpp:96-136 | the inner pixel loop meets one column's candidates |
| Renderers.Renderer.DrawPixel | Renderer.cpp:97-135 | one pixel's candidate, if any, meets the depth test |
| Renderers.Renderer.FragmentShading | Renderer.cpp:173-195 | the frame buffer becomes the resolved image, or the write fails, out of range, exactly when a fragment lies outside the image |
| Renderers.Renderer.ShadeFragments | Renderer.cpp:178-194 | the fragment loop over a cleared buffer leaves each fragment's colour at its cell and black elsewhere, or fails exactly when a fragment is outside |
| Renderers.Renderer.ShadeFragment | Renderer.cpp:179-193 | one fragment's colour is written at its cell; the write fails exactly when the cell is outside the image |
| Renderers.Renderer.RenderForDisplay | Renderer.cpp:152-172 | the shading policy is kept, the buffers are `Rendered` under it, and the result is the converted resolved image, or an out-of-range error exactly when a fragment lies outside the image |
| Renderers.Renderer.RenderPasses | Renderer.cpp:163-170 | clearing and the three passes leave the buffers of `Rendered`, whatever the maps held before |

## Left out

- Floating point: every `double` and `float` is an exact real. Rounding and the `float` precision of colours are not modelled. NaN and infinity cannot be expressed, so the divisions by zero that would produce them are excluded by preconditions, each listed below.
- `sqrt`, `pow`, `tan` and `M_PI` are not computed. They are fields of the `Math` record, and no property of theirs is assumed, so nothing is proved about lengths after `normalize` or about the frustum extents beyond their use.
- Matrices.Normalized: a vector of norm 0 is returned unchanged. The source divides it by 0, giving NaN entries, which reals cannot express. The `norm() == 1.` shortcut of `normalize` is kept.
- Matrices.ScalarMap, Matrices.ScalarMapAt, Matrices.ScalarMap3, MatrixOperators.ScalarOperator, MatrixOperators.CompoundAssignScalar: require a nonzero scalar for division (`ScalarDefined`). The source's `operator/` and `operator/=` (Matrix.h:322-330, 412-416) divide every entry by the scalar whatever it is, so a zero scalar gives infinite or NaN entries; the model does not describe that case. Multiplication, addition and subtraction by a scalar are modelled for every scalar.
- MeshNormals.FaceNormal, MeshNormals.VertexNormal: state only that the normal is a multiple of the cross product or of the sum of face normals, because the factor comes from the uninterpreted square root.
- Utils.HomoDivide and Renderers.Divided: require a nonzero fourth coordinate, where the source would divide by zero. `SceneReady` asks this of every vertex (no vertex in the plane of the eye).
- Raster.ViewOf, Utils.BaryCoord, Renderers.SceneReady: require that every face the skip test does not drop has a nonzero signed area on screen (`FaceDrawable`, `NonDegenerate`). A face whose plane contains the eye projects to a segment; the source still rasterizes it, `computeBaryCoord` divides by a zero distance (Utils.cpp:72-74), the pixels on the segment get NaN coordinates, pass the inside test because every comparison with NaN is false, and their NaN-depth fragments replace whatever the pixel held. The model does not describe such scenes.
- Utils.Perspective: requires r != l, t != b and n != f; for a camera with no frustum the source divides by zero and builds a matrix with infinite or NaN entries.
- Integer width: casts from `double` to `int` (the bounding box), from `unsigned long` (sizes) and `int` overflow in index arithmetic are taken as exact; the bounding box uses mathematical floor and ceiling.
- MeshWalks.FanFaces, MeshWalks.FanVertices, TriMeshes.TriMesh.GetVertexFaces, TriMeshes.TriMesh.GetVertexVertices, TriMeshes.TriMesh.constructor: require a closed fan around the vertex (for the constructor, around every vertex, through `NormalsReady`). On a boundary vertex the source's `do … while` reaches a null `oppositeHalfEdge` and the next iteration dereferences it (TriMesh.cpp:160, 205), and a vertex that belongs to no face has a null `halfEdge` that is dereferenced at once; both are undefined behaviour, in practice a crash. Since the constructor calls `updateNormals`, the source cannot load an open mesh, and the model does not describe what happens then.
- TriMeshes.TriMesh.constructor, MeshBuild.BuildFaces, MeshBuild.Built, MeshShape.BuiltMap: require every vertex number of every face to name a loaded vertex (`TriplesIn`; for the class, part of `Valid`). The source's reader accepts any integer in an `f` record and shifts it down by one (TriMesh.cpp:25-26), so a number of 0, a negative one or one above the vertex count reaches `initializeHalfEdgeMesh`, which reads `vertices[e.first]` out of bounds (TriMesh.cpp:67-68), undefined behaviour. The model does not describe such files.
- TriMeshes.TriMesh.Subdivision: requires every half-edge of every face to have an opposite (a closed mesh) and the walks around every vertex to close, because the source dereferences the opposite of each half-edge and walks every vertex's fan.
- The half-edge proofs about the built structure (`BuiltFace`, `BuiltOpposite`, `BuiltVertex`, `BuiltFan`, `BuiltFaceCorners`) assume no directed edge repeats. When one does, the model still builds what the source builds (the later face overwrites the map entry, as `BuiltMap` states), but no shape property is claimed for it.
- TriMeshes.TriMesh.GetFaceVertices: modelled as written. On a built mesh the face points at the half-edge of its last edge, so the corners come back rotated, (c, a, b) for the triple (a, b, c); `MeshWalks.BuiltFaceCorners` states this and `MeshNormals.FaceNormalRotation` shows that the normals do not change.
- Stream input: the OBJ reader of the `TriMesh` constructor is given the file already split into records (`ObjRecord`), and `writeToObjFile` is not modelled. The scene file reader (`Scene.cpp`) is not modelled; the scene is a value passed to the `Renderer` constructor.
- `Camera`, `LightSource`, `Surface` and `Scene` getters and setters are plain field reads; the records are immutable values.
- Shared-pointer ownership, aliasing and reference cycles between vertices, faces and half-edges are replaced by indices into arenas; the renderer's maps are keyed by (surface, index) pairs instead of pointers.
- Matrix `print`, Matrix `getRawData` (a raw pointer to the buffer), the console messages of `renderForDisplay`, and `main.cpp` (the window, the event loop and PPM output) are output only.
- Renderers.Renderer.FragmentShading: the source walks `fragments` in key order; the model writes them in any order. Distinct pixels have distinct cells, so the image is the same. When a fragment lies outside the image the source throws `std::out_of_range` out of `renderForDisplay`; the model returns that error and says nothing about the partly written frame buffer.
- Scenes.LightBehindDarkens: stated for one light's step, not for the whole sum, since other lights may add light back.
- `Color.h` is not part of this model: colours are 3x1 matrices of reals (`ColorRGB32f`) or bytes (`ColorRGB8i`).
