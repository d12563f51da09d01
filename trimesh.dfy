/** The class `TriMesh` (TriMesh.h, TriMesh.cpp): the vertex list, the face list and the half-edge
    map it updates in place, the flags that say whether the half-edge structure and the normals
    are current, and the loops of its methods. Every method is proved to end in the state the
    functions of `MeshBuild`, `MeshNormals`, `MeshWalks` and `MeshSubdivision` describe, which is
    where the properties of those states are proved. */
module TriMeshes {
  import opened Matrices
  import opened MeshTypes
  import opened MeshBuild
  import opened MeshWalks
  import opened MeshNormals
  import opened MeshSubdivision

  /** One record of an OBJ file as the constructor's reading loop meets it: a `v` line with its
      three coordinates, an `f` line with its three 1-based vertex numbers, or anything else
      (a `#` comment, a character the loop skips). */
  datatype ObjRecord = VertexRecord(x: real, y: real, z: real) | FaceRecord(v0: int, v1: int, v2: int) | Skipped

  /** The vertex list after the reading loop: a vertex per `v` record, in file order, whose index
      is its place in the list. */
  function LoadedVertices(records: seq<ObjRecord>): (vs: seq<Vertex>)
    ensures |vs| <= |records|
    ensures forall v | 0 <= v < |vs| :: vs[v].index == v && IsVector3(vs[v].position)
                                        && vs[v].halfEdge == NULL && vs[v].normal.None?
  {
    if |records| == 0 then []
    else
      var vs := LoadedVertices(records[..|records| - 1]);
      match records[|records| - 1]
      case VertexRecord(x, y, z) => vs + [NewVertex(Vector3(x, y, z)).(index := |vs|)]
      case _ => vs
  }

  /** The face triples after the reading loop: a triple per `f` record, in file order, with the
      1-based vertex numbers made 0-based. */
  function LoadedFaces(records: seq<ObjRecord>): (fi: seq<Triple>)
    ensures |fi| <= |records|
  {
    if |records| == 0 then []
    else
      var fi := LoadedFaces(records[..|records| - 1]);
      match records[|records| - 1]
      case FaceRecord(v0, v1, v2) => fi + [Triple(v0 - 1, v1 - 1, v2 - 1)]
      case _ => fi
  }

  /** Each face triple is the matching `f` record's numbers minus one: a file whose `f` records are
      all 1, 2, 3 yields the triple (0, 1, 2) for each. */
  lemma {:induction false} LoadedFacesShifted(records: seq<ObjRecord>)
    requires forall l | 0 <= l < |records| :: records[l].FaceRecord? ==> records[l] == FaceRecord(1, 2, 3)
    ensures forall t | 0 <= t < |LoadedFaces(records)| :: LoadedFaces(records)[t] == Triple(0, 1, 2)
  {
    if |records| > 0 {
      LoadedFacesShifted(records[..|records| - 1]);
    }
  }

  /** The half-edge mesh of an OBJ file. */
  class TriMesh {
    var vertices: seq<Vertex>
    var faceArena: seq<Face>
    var faces: seq<int>
    var arena: seq<HalfEdge>
    var halfEdges: map<Edge, int>
    var faceIndices: seq<Triple>
    var halfEdgeMeshInitialized: bool
    var normalUpdated: bool
    /** The square root `normalize` uses. */
    const math: Math

    /** The pointer structure the fields hold. */
    function Structure(): Links
      reads this
    {
      Links(vertices, faceArena, faces, arena, halfEdges)
    }

    /** The face triples name vertices of the list, every vertex's index is its place in the list,
        and normals are only ever current on a current half-edge structure. */
    ghost predicate Valid()
      reads this
    {
      TriplesIn(faceIndices, |vertices|)
      && (forall v | 0 <= v < |vertices| :: vertices[v].index == v)
      && (normalUpdated ==> halfEdgeMeshInitialized)
    }

    /** The structure `updateNormals` works on: the current one, or the one
        `initializeHalfEdgeMesh` builds first. */
    ghost function Prepared(): Links
      reads this
      requires Valid()
    {
      if halfEdgeMeshInitialized then Structure() else Built(Structure(), faceIndices)
    }

    /** The structure `subdivision` walks: the current one, or the one `initializeHalfEdgeMesh`
        builds and gives normals first. */
    ghost function Initialized(): Links
      reads this
      requires Valid()
      requires !halfEdgeMeshInitialized ==> NormalsReady(Built(Structure(), faceIndices))
    {
      if halfEdgeMeshInitialized then Structure() else Normals(Built(Structure(), faceIndices), math)
    }

    /** `TriMesh(inputFileName)` on a file already split into records: the reading loop appends a
        vertex per `v` record and a triple per `f` record, then the half-edge structure is built
        and the normals computed. */
    constructor (math: Math, records: seq<ObjRecord>)
      requires TriplesIn(LoadedFaces(records), |LoadedVertices(records)|)
      requires NormalsReady(Built(Links(LoadedVertices(records), [], [], [], map[]), LoadedFaces(records)))
      ensures Valid() && halfEdgeMeshInitialized && normalUpdated
      ensures faceIndices == LoadedFaces(records)
      ensures Structure() == Normals(Built(Links(LoadedVertices(records), [], [], [], map[]), LoadedFaces(records)), math)
    {
      this.math := math;
      vertices, faceArena, faces, arena, halfEdges := [], [], [], [], map[];
      faceIndices := [];
      halfEdgeMeshInitialized, normalUpdated := false, false;
      new;
      ReadRecords(records);
      InitializeHalfEdgeMesh();
    }

    /** The reading loop of the constructor: a vertex for each `v` record, with its index set to
        its place in the list, and a 0-based triple for each `f` record. */
    method ReadRecords(records: seq<ObjRecord>)
      requires vertices == [] && faceIndices == []
      modifies this
      ensures vertices == LoadedVertices(records) && faceIndices == LoadedFaces(records)
      ensures Structure() == old(Structure()).(vertices := vertices)
      ensures halfEdgeMeshInitialized == old(halfEdgeMeshInitialized) && normalUpdated == old(normalUpdated)
    {
      for l := 0 to |records|
        invariant vertices == LoadedVertices(records[..l]) && faceIndices == LoadedFaces(records[..l])
        invariant Structure() == old(Structure()).(vertices := vertices)
        invariant halfEdgeMeshInitialized == old(halfEdgeMeshInitialized) && normalUpdated == old(normalUpdated)
      {
        assert records[..l + 1][..l] == records[..l];
        match records[l]
        case VertexRecord(x, y, z) =>
          vertices := vertices + [NewVertex(Vector3(x, y, z))];
          vertices := vertices[|vertices| - 1 := vertices[|vertices| - 1].(index := |vertices| - 1)];
        case FaceRecord(v0, v1, v2) =>
          faceIndices := faceIndices + [Triple(v0 - 1, v1 - 1, v2 - 1)];
        case Skipped =>
      }
      assert records[..|records|] == records;
    }

    /** `initializeHalfEdgeMesh`: nothing when the structure is current; otherwise clear the face
        list and the map, build the structure, mark it current and compute the normals. */
    method InitializeHalfEdgeMesh()
      requires Valid()
      requires !halfEdgeMeshInitialized ==> NormalsReady(Built(Structure(), faceIndices))
      modifies this
      decreases if halfEdgeMeshInitialized then 0 else 1
      ensures Valid() && halfEdgeMeshInitialized && faceIndices == old(faceIndices)
      ensures old(halfEdgeMeshInitialized) ==> Structure() == old(Structure()) && normalUpdated == old(normalUpdated)
      ensures !old(halfEdgeMeshInitialized) ==>
                normalUpdated && Structure() == Normals(Built(old(Structure()), faceIndices), math)
    {
      if halfEdgeMeshInitialized {
        return;
      }
      halfEdges := map[];
      faces := [];
      BuildFaces();
      halfEdgeMeshInitialized := true;
      UpdateNormals();
    }

    /** The outer loop of `initializeHalfEdgeMesh`, one face triple at a time. */
    method BuildFaces()
      requires TriplesIn(faceIndices, |vertices|) && MapInArena(Structure())
      modifies this
      ensures Structure() == MeshBuild.BuildFaces(old(Structure()), old(faceIndices), |old(faceIndices)|)
      ensures faceIndices == old(faceIndices) && halfEdgeMeshInitialized == old(halfEdgeMeshInitialized)
      ensures normalUpdated == old(normalUpdated)
      ensures forall v | 0 <= v < |vertices| :: vertices[v].index == old(vertices)[v].index
    {
      ghost var s := Structure();
      for t := 0 to |faceIndices|
        invariant faceIndices == old(faceIndices) && halfEdgeMeshInitialized == old(halfEdgeMeshInitialized)
        invariant Structure() == MeshBuild.BuildFaces(s, faceIndices, t)
        invariant normalUpdated == old(normalUpdated)
        invariant |vertices| == |s.vertices| && forall v | 0 <= v < |vertices| :: vertices[v].index == s.vertices[v].index
      {
        BuildFace(t);
      }
    }

    /** One iteration of the outer loop: push a face, create the half-edges of its three edges,
        then link them. */
    method BuildFace(t: int)
      requires 0 <= t < |faceIndices| && TriplesIn(faceIndices, |vertices|) && MapInArena(Structure())
      modifies this
      ensures Structure() == MeshBuild.BuildFace(old(Structure()), old(faceIndices)[t])
      ensures faceIndices == old(faceIndices) && halfEdgeMeshInitialized == old(halfEdgeMeshInitialized)
      ensures normalUpdated == old(normalUpdated)
      ensures |vertices| == old(|vertices|) && forall v | 0 <= v < |vertices| :: vertices[v].index == old(vertices)[v].index
    {
      ghost var s := Structure();
      var f := faceIndices[t];
      var fid := |faceArena|;
      faceArena := faceArena + [BlankFace];
      faces := faces + [fid];
      ghost var added := Structure();
      for i := 0 to 3
        invariant Structure() == CreateEdges(added, f, i)
        invariant faceIndices == old(faceIndices) && halfEdgeMeshInitialized == old(halfEdgeMeshInitialized)
        invariant normalUpdated == old(normalUpdated)
      {
        halfEdges := halfEdges[EdgePair(f, i) := |arena|];
        arena := arena + [BlankHalfEdge];
      }
      ghost var created := Structure();
      for i := 0 to 3
        invariant Structure() == LinkEdges(created, f, fid, i)
        invariant faceIndices == old(faceIndices) && halfEdgeMeshInitialized == old(halfEdgeMeshInitialized)
        invariant normalUpdated == old(normalUpdated)
        invariant |vertices| == |s.vertices| && forall v | 0 <= v < |vertices| :: vertices[v].index == s.vertices[v].index
      {
        EdgePairsChain(f, i);
        LinkHalfEdge(f, fid, i);
      }
    }

    /** One iteration of the second inner loop: the half-edge of the i-th edge gets its face, the
        face and the start vertex point at it, it gets its start vertex and its successor, and it
        is paired with the half-edge of the reverse edge when the map has one. */
    method LinkHalfEdge(f: Triple, fid: int, i: nat)
      requires MapInArena(Structure()) && TripleIn(f, |vertices|) && 0 <= fid < |faceArena|
      requires EdgePair(f, i) in halfEdges && EdgePair(f, i + 1) in halfEdges
      modifies this
      ensures Structure() == LinkEdge(old(Structure()), f, fid, i)
      ensures faceIndices == old(faceIndices) && halfEdgeMeshInitialized == old(halfEdgeMeshInitialized)
      ensures normalUpdated == old(normalUpdated)
      ensures |vertices| == old(|vertices|) && forall v | 0 <= v < |vertices| :: vertices[v].index == old(vertices)[v].index
    {
      var e := EdgePair(f, i);
      var h := halfEdges[e];
      arena := arena[h := arena[h].(face := fid)];
      faceArena := faceArena[fid := faceArena[fid].(halfEdge := h)];
      arena := arena[h := arena[h].(startVertex := e.0)];
      vertices := vertices[e.0 := vertices[e.0].(halfEdge := h)];
      arena := arena[h := arena[h].(next := halfEdges[EdgePair(f, i + 1)])];
      var oe := OppositeEdgePair(e);
      if oe in halfEdges {
        arena := arena[h := arena[h].(opposite := halfEdges[oe])];
        arena := arena[halfEdges[oe] := arena[halfEdges[oe]].(opposite := h)];
      }
    }

    /** `updateNormals`: build the structure first if it is not current; nothing more when the
        normals are current; otherwise the face loop, then the vertex loop. */
    method UpdateNormals()
      requires Valid()
      requires !normalUpdated ==> NormalsReady(Prepared())
      modifies this
      decreases if halfEdgeMeshInitialized then 0 else 2
      ensures Valid() && halfEdgeMeshInitialized && normalUpdated && faceIndices == old(faceIndices)
      ensures old(normalUpdated) ==> Structure() == old(Structure())
      ensures !old(normalUpdated) ==> Structure() == Normals(old(Prepared()), math)
    {
      if !halfEdgeMeshInitialized {
        InitializeHalfEdgeMesh();
      }
      if normalUpdated {
        return;
      }
      ComputeNormals();
      normalUpdated := true;
    }

    /** The two loops of `updateNormals`, on a current structure. */
    method ComputeNormals()
      requires NormalsReady(Structure())
      modifies this
      ensures Structure() == Normals(old(Structure()), math)
      ensures faceIndices == old(faceIndices) && halfEdgeMeshInitialized == old(halfEdgeMeshInitialized)
      ensures normalUpdated == old(normalUpdated)
      ensures |vertices| == |old(vertices)| && forall v | 0 <= v < |vertices| :: vertices[v].index == old(vertices)[v].index
    {
      ghost var s := Structure();
      FaceNormals();
      FaceLoopReadies(s, math);
      VertexNormals();
    }

    /** The face loop of `updateNormals`: each listed face gets the unit normal and the centroid
        of its corners. */
    method FaceNormals()
      requires FacesReady(Structure())
      modifies this
      ensures Structure() == WithFaceNormals(old(Structure()), math, |old(faces)|)
      ensures faceIndices == old(faceIndices) && halfEdgeMeshInitialized == old(halfEdgeMeshInitialized)
      ensures normalUpdated == old(normalUpdated)
    {
      ghost var s := Structure();
      for k := 0 to |faces|
        invariant |faceArena| == |s.faceArena| && Structure() == s.(faceArena := faceArena)
        invariant forall f | 0 <= f < |faceArena| ::
                    faceArena[f] == if f in s.faces[..k] then FaceWithNormal(math, s.arena, s.vertices, s.faceArena[f]) else s.faceArena[f]
        invariant faceIndices == old(faceIndices) && halfEdgeMeshInitialized == old(halfEdgeMeshInitialized)
        invariant normalUpdated == old(normalUpdated)
      {
        assert s.faces[..k + 1] == s.faces[..k] + [s.faces[k]];
        SetFaceNormal(k, s);
      }
      assert s.faces[..|s.faces|] == s.faces;
      FaceLoopDone(s, math, faceArena);
    }

    /** One iteration of the face loop: the k-th face of the list gets the unit normal of the
        cross product of its two edges from the first corner, and the mean of its corners. */
    method SetFaceNormal(k: int, ghost s: Links)
      requires FacesReady(s) && 0 <= k < |s.faces|
      requires Structure() == s.(faceArena := faceArena) && |faceArena| == |s.faceArena|
      requires faceArena[faces[k]].halfEdge == s.faceArena[faces[k]].halfEdge
      modifies this
      ensures faceArena == old(faceArena)[s.faces[k] := FaceWithNormal(math, s.arena, s.vertices, s.faceArena[s.faces[k]])]
      ensures Structure() == old(Structure()).(faceArena := faceArena)
      ensures faceIndices == old(faceIndices) && halfEdgeMeshInitialized == old(halfEdgeMeshInitialized)
      ensures normalUpdated == old(normalUpdated)
    {
      var face := faces[k];
      var corners := FaceCorners(arena, faceArena[face].halfEdge);
      var ps := [vertices[corners[0]].position, vertices[corners[1]].position, vertices[corners[2]].position];
      var ab := Elementwise(ps[1], ps[0], Minus);
      var ac := Elementwise(ps[2], ps[0], Minus);
      var normal := Normalized(math, Cross(ab, ac).value);
      var position := Zero3;
      for i := 0 to 3
        invariant position == CornerSum(ps, i)
      {
        position := Elementwise(position, ps[i], Plus);
      }
      position := ScalarMap(position, 3.0, DivideBy);
      CornerSumIsCentroid(ps);
      faceArena := faceArena[face := faceArena[face].(normal := Some(normal), position := Some(position))];
    }

    /** The vertex loop of `updateNormals`: each vertex gets the normalised sum of the normals of
        the faces around it. */
    method VertexNormals()
      requires VerticesReady(Structure())
      modifies this
      ensures Structure() == WithVertexNormals(old(Structure()), math, |old(vertices)|)
      ensures |vertices| == |old(vertices)| && forall v | 0 <= v < |vertices| :: vertices[v].index == old(vertices)[v].index
      ensures faceIndices == old(faceIndices) && halfEdgeMeshInitialized == old(halfEdgeMeshInitialized)
      ensures normalUpdated == old(normalUpdated)
    {
      ghost var r := Structure();
      for v := 0 to |vertices|
        invariant |vertices| == |r.vertices| && Structure() == r.(vertices := vertices)
        invariant forall u | 0 <= u < |vertices| ::
                    vertices[u] == if u < v then WithVertexNormal(math, r.arena, r.faceArena, r.vertices[u]) else r.vertices[u]
        invariant faceIndices == old(faceIndices) && halfEdgeMeshInitialized == old(halfEdgeMeshInitialized)
        invariant normalUpdated == old(normalUpdated)
      {
        SetVertexNormal(v, r);
      }
      VertexLoopDone(r, math, vertices);
    }

    /** One iteration of the vertex loop: sum the normals of the faces around vertex v and store
        the normalised sum. */
    method SetVertexNormal(v: int, ghost r: Links)
      requires VerticesReady(r) && 0 <= v < |r.vertices| && Structure() == r.(vertices := vertices)
      requires |vertices| == |r.vertices| && vertices[v] == r.vertices[v]
      modifies this
      ensures vertices == old(vertices)[v := WithVertexNormal(math, r.arena, r.faceArena, r.vertices[v])]
      ensures Structure() == old(Structure()).(vertices := vertices)
      ensures faceIndices == old(faceIndices) && halfEdgeMeshInitialized == old(halfEdgeMeshInitialized)
      ensures normalUpdated == old(normalUpdated)
    {
      assert FanNormalsReady(r.arena, r.faceArena, r.vertices[v].halfEdge);
      var faceNeighbors := GetVertexFaces(v);
      var normalSum := Zero3;
      for j := 0 to |faceNeighbors|
        invariant normalSum == SumFaceNormals(faceArena, faceNeighbors[..j])
      {
        assert faceNeighbors[..j + 1][..j] == faceNeighbors[..j];
        normalSum := Elementwise(normalSum, faceArena[faceNeighbors[j]].normal.value, Plus);
      }
      assert faceNeighbors[..|faceNeighbors|] == faceNeighbors;
      vertices := vertices[v := vertices[v].(normal := Some(Normalized(math, normalSum)))];
    }

    /** `getVertexFaces`: the face of every half-edge met turning around the vertex, until the
        walk is back at the vertex's half-edge. */
    method GetVertexFaces(v: int) returns (res: seq<int>)
      requires 0 <= v < |vertices| && ClosedFan(arena, vertices[v].halfEdge)
      ensures res == FanFaces(arena, vertices[v].halfEdge, FanSize(arena, vertices[v].halfEdge))
    {
      var h0 := vertices[v].halfEdge;
      ghost var n := FanSize(arena, h0);
      var h := h0;
      res := [];
      while true
        invariant |res| < n && h == Orbit(arena, h0, |res|) && res == FanFaces(arena, h0, |res|)
        decreases n - |res|
      {
        res := res + [arena[h].face];
        h := arena[arena[arena[h].next].next].opposite;
        assert h == Orbit(arena, h0, |res|) && res == FanFaces(arena, h0, |res|);
        if h == h0 {
          break;
        }
      }
    }

    /** `getVertexVertices`: the far end of every half-edge met turning around the vertex, until
        the walk is back at the vertex's half-edge. */
    method GetVertexVertices(v: int) returns (res: seq<int>)
      requires 0 <= v < |vertices| && ClosedFan(arena, vertices[v].halfEdge)
      ensures res == FanVertices(arena, vertices[v].halfEdge, FanSize(arena, vertices[v].halfEdge))
    {
      var h0 := vertices[v].halfEdge;
      ghost var n := FanSize(arena, h0);
      var h := h0;
      res := [];
      while true
        invariant |res| < n && h == Orbit(arena, h0, |res|) && res == FanVertices(arena, h0, |res|)
        decreases n - |res|
      {
        res := res + [arena[arena[h].next].startVertex];
        h := arena[arena[arena[h].next].next].opposite;
        assert h == Orbit(arena, h0, |res|) && res == FanVertices(arena, h0, |res|);
        if h == h0 {
          break;
        }
      }
    }

    /** `getFaceVertices`: the start vertices of the face's half-edge and of the two after it. */
    method GetFaceVertices(face: int) returns (res: seq<int>)
      requires 0 <= face < |faceArena| && Walkable(arena, faceArena[face].halfEdge)
      ensures res == FaceCorners(arena, faceArena[face].halfEdge)
    {
      var h := faceArena[face].halfEdge;
      res := [arena[h].startVertex];
      res := res + [arena[arena[h].next].startVertex];
      res := res + [arena[arena[arena[h].next].next].startVertex];
    }

    /** `subdivision`: build the structure if it is not current; walk every face, giving each of
        its half-edges without one a new vertex at the edge point (shared with the twin) and
        emitting the four triples the face becomes; make those the face triples and mark the
        structure and the normals stale; then compute every original vertex's smoothed position
        from the old positions before writing any of them back. */
    method Subdivision()
      requires Valid()
      requires !halfEdgeMeshInitialized ==> NormalsReady(Built(Structure(), faceIndices))
      requires SubdivisionReady(Initialized())
      modifies this
      ensures Valid() && !halfEdgeMeshInitialized && !normalUpdated
      ensures faceIndices == SubdividedFaces(old(Initialized()))
      ensures vertices == SubdividedVertices(old(Initialized()))
      ensures Structure() == old(Initialized()).(vertices := vertices)
    {
      InitializeHalfEdgeMesh();
      SubdivideStructure();
    }

    /** `subdivision` once the structure is current. */
    method SubdivideStructure()
      requires Valid() && halfEdgeMeshInitialized && SubdivisionReady(Structure())
      modifies this
      ensures Valid() && !halfEdgeMeshInitialized && !normalUpdated
      ensures faceIndices == SubdividedFaces(old(Structure()))
      ensures vertices == SubdividedVertices(old(Structure()))
      ensures Structure() == old(Structure()).(vertices := vertices)
    {
      ghost var s := Structure();
      var oldVertexNumber := |vertices|;
      var newVertexIndices, newFaceIndices, made := SplitFaceLoop(s);
      faceIndices := newFaceIndices;
      halfEdgeMeshInitialized := false;
      normalUpdated := false;
      var newPositions := SmoothedPositions(s, made, oldVertexNumber);
      CommitPositions(s, made, newPositions, oldVertexNumber);
      SubdividedAre(s, made, newPositions, vertices);
      SubdividedShape(s);
    }

    /** The last loop of `subdivision`: each original vertex takes its new position. */
    method CommitPositions(ghost s: Links, ghost made: seq<int>, newPositions: seq<Mat<real>>, oldVertexNumber: int)
      requires SplitState(s, made) && oldVertexNumber == |s.vertices| == |newPositions|
      modifies this
      ensures Structure() == s.(vertices := vertices) && |vertices| == |s.vertices| + |made|
      ensures forall v | 0 <= v < |s.vertices| :: vertices[v] == s.vertices[v].(position := newPositions[v])
      ensures vertices[|s.vertices|..] == NewVertices(s.arena, s.vertices, made)
      ensures faceIndices == old(faceIndices) && halfEdgeMeshInitialized == old(halfEdgeMeshInitialized)
      ensures normalUpdated == old(normalUpdated)
    {
      for i := 0 to oldVertexNumber
        invariant Structure() == s.(vertices := vertices) && |vertices| == |s.vertices| + |made|
        invariant faceIndices == old(faceIndices) && halfEdgeMeshInitialized == old(halfEdgeMeshInitialized)
        invariant normalUpdated == old(normalUpdated)
        invariant forall v | 0 <= v < |s.vertices| ::
                    vertices[v] == if v < i then s.vertices[v].(position := newPositions[v]) else s.vertices[v]
        invariant vertices[|s.vertices|..] == NewVertices(s.arena, s.vertices, made)
      {
        ghost var before := vertices;
        vertices := vertices[i := vertices[i].(position := newPositions[i])];
        assert vertices[|s.vertices|..] == before[|s.vertices|..];
      }
    }

    /** The loop over the faces in `subdivision`: the new-vertex map and the new triples it
        leaves, and the half-edges that made vertices, in order. */
    method SplitFaceLoop(ghost s: Links) returns (newVertexIndices: map<int, int>, newFaceIndices: seq<Triple>,
                                                  ghost made: seq<int>)
      requires SplitReady(s) && Structure() == s
      modifies this
      ensures Split(made, newVertexIndices, newFaceIndices) == Marked(s)
      ensures SplitState(s, made)
      ensures faceIndices == old(faceIndices) && halfEdgeMeshInitialized == old(halfEdgeMeshInitialized)
      ensures normalUpdated == old(normalUpdated)
    {
      newVertexIndices, newFaceIndices, made := map[], [], [];
      for k := 0 to |faces|
        invariant Split(made, newVertexIndices, newFaceIndices) == SplitFaces(s, k)
        invariant SplitState(s, made)
        invariant faceIndices == old(faceIndices) && halfEdgeMeshInitialized == old(halfEdgeMeshInitialized)
        invariant normalUpdated == old(normalUpdated)
      {
        newVertexIndices, newFaceIndices, made := SplitFaceOf(s, k, newVertexIndices, newFaceIndices, made);
      }
    }

    /** The state of the loop over the faces: only the vertex list has changed, by the new
        vertices of the half-edges in `made`, appended in order. */
    ghost predicate SplitState(s: Links, made: seq<int>)
      reads this
    {
      SplitReady(s) && Structure() == s.(vertices := vertices) && MadeReady(s.arena, s.vertices, made)
      && vertices == s.vertices + NewVertices(s.arena, s.vertices, made)
    }

    /** One iteration of the loop over the faces: the marking do-while, then the emitting
        do-while and the centre triple. */
    method SplitFaceOf(ghost s: Links, k: int, marks: map<int, int>, triples: seq<Triple>, ghost made: seq<int>)
      returns (marks': map<int, int>, triples': seq<Triple>, ghost made': seq<int>)
      requires SplitReady(s) && 0 <= k < |s.faces| && SplitState(s, made)
      modifies this
      ensures Split(made', marks', triples') == SplitFace(Split(made, marks, triples), s.arena, s.vertices, FaceEdge(s, k))
      ensures SplitState(s, made')
      ensures faceIndices == old(faceIndices) && halfEdgeMeshInitialized == old(halfEdgeMeshInitialized)
      ensures normalUpdated == old(normalUpdated)
    {
      ghost var a, vs, st := s.arena, s.vertices, Split(made, marks, triples);
      var h0 := faceArena[faces[k]].halfEdge;
      assert FaceSplittable(a, vs, h0);
      var halfEdge := h0;
      marks', triples', made' := marks, triples, made;
      ghost var i := 0;
      while true
        invariant i < 3 && halfEdge == Around(a, h0, i)
        invariant Split(made', marks', triples') == MarkAround(st, a, |vs|, h0, i)
        invariant SplitState(s, made')
        invariant faceIndices == old(faceIndices) && halfEdgeMeshInitialized == old(halfEdgeMeshInitialized)
        invariant normalUpdated == old(normalUpdated)
        decreases 3 - i
      {
        SplittableAround(a, vs, h0, i);
        marks', made' := MarkHalfEdge(s, halfEdge, marks', triples', made');
        AroundNext(a, h0, i);
        halfEdge := arena[halfEdge].next;
        i := i + 1;
        if halfEdge == h0 {
          break;
        }
      }
      ghost var m := Split(made', marks', triples');
      assert i == 3 && m == MarkAround(st, a, |vs|, h0, 3);
      triples' := EmitFace(s, h0, m, marks', triples');
    }

    /** The emitting do-while and the centre triple of one face, whose half-edges all have their
        new vertex in m. */
    method EmitFace(ghost s: Links, h0: int, ghost m: Split, marks: map<int, int>, triples: seq<Triple>)
      returns (triples': seq<Triple>)
      requires SplitState(s, m.made) && m.marks == marks && m.triples == triples
      requires FaceSplittable(s.arena, s.vertices, h0) && forall j | 0 <= j < 3 :: Around(s.arena, h0, j) in marks
      ensures triples' == FaceTriples(m, s.arena, s.vertices, h0)
    {
      ghost var a, vs := s.arena, s.vertices;
      var halfEdge := h0;
      triples' := triples;
      ghost var i := 0;
      while true
        invariant i < 3 && halfEdge == Around(a, h0, i)
        invariant triples' == EmitAround(m, a, vs, h0, i).triples
        decreases 3 - i
      {
        AroundNext(a, h0, i);
        assert vertices[arena[arena[halfEdge].next].startVertex] == vs[a[a[halfEdge].next].startVertex];
        triples' := triples' + [Triple(marks[halfEdge], vertices[arena[arena[halfEdge].next].startVertex].index,
                                       marks[arena[halfEdge].next])];
        halfEdge := arena[halfEdge].next;
        i := i + 1;
        if halfEdge == h0 {
          break;
        }
      }
      AroundNext(a, h0, 0);
      AroundNext(a, h0, 1);
      triples' := triples' + [Triple(marks[halfEdge], marks[arena[halfEdge].next],
                                     marks[arena[arena[halfEdge].next].next])];
    }

    /** One iteration of the marking do-while: a half-edge without a new vertex appends one at its
        edge point, with its index set, and it and its twin map to that index. */
    method MarkHalfEdge(ghost s: Links, halfEdge: int, marks: map<int, int>, ghost triples: seq<Triple>,
                        ghost made: seq<int>) returns (marks': map<int, int>, ghost made': seq<int>)
      requires SplitState(s, made) && EdgeReady(s.arena, s.vertices, halfEdge)
      modifies this
      ensures Split(made', marks', triples) == MarkEdge(Split(made, marks, triples), s.arena, |s.vertices|, halfEdge)
      ensures SplitState(s, made')
      ensures faceIndices == old(faceIndices) && halfEdgeMeshInitialized == old(halfEdgeMeshInitialized)
      ensures normalUpdated == old(normalUpdated)
    {
      marks', made' := marks, made;
      var u := arena[halfEdge].startVertex;
      var v := arena[arena[halfEdge].next].startVertex;
      if halfEdge !in marks {
        var w := arena[arena[arena[halfEdge].next].next].startVertex;
        var x := arena[arena[arena[arena[halfEdge].opposite].next].next].startVertex;
        var newPosition := EdgePoint(vertices[u].position, vertices[v].position, vertices[w].position, vertices[x].position);
        vertices := vertices + [NewVertex(newPosition)];
        vertices := vertices[|vertices| - 1 := vertices[|vertices| - 1].(index := |vertices| - 1)];
        marks' := marks[arena[halfEdge].opposite := |vertices| - 1][halfEdge := |vertices| - 1];
        NewVerticesSnoc(s.arena, s.vertices, made, halfEdge);
        made' := made + [halfEdge];
      }
    }

    /** The loop computing `newPositions`: for each original vertex, its position scaled by
        `1 - n * beta` plus each neighbour's scaled by `beta`, on the structure before the loop. */
    method SmoothedPositions(ghost s: Links, ghost made: seq<int>, oldVertexNumber: int)
      returns (newPositions: seq<Mat<real>>)
      requires SubdivisionReady(s) && SplitState(s, made) && oldVertexNumber == |s.vertices|
      ensures OriginalsKept(s)
      ensures |newPositions| == |s.vertices|
      ensures forall v | 0 <= v < |s.vertices| ::
                newPositions[v] == Smoothed(s.vertices, v, Neighbours(s.arena, s.vertices, v))
    {
      newPositions := [];
      assert OriginalsKept(s) by {
        forall v | 0 <= v < |s.vertices| ensures vertices[v] == s.vertices[v] {
          assert vertices[v] == (s.vertices + NewVertices(s.arena, s.vertices, made))[v];
        }
      }
      for i := 0 to oldVertexNumber
        invariant |newPositions| == i
        invariant forall v | 0 <= v < i :: newPositions[v] == Smoothed(s.vertices, v, Neighbours(s.arena, s.vertices, v))
      {
        var p := SmoothedPosition(s, i);
        newPositions := newPositions + [p];
      }
    }

    /** The half-edges and the original vertices are those of s. */
    ghost predicate OriginalsKept(s: Links)
      reads this
    {
      arena == s.arena && |s.vertices| <= |vertices| && forall v | 0 <= v < |s.vertices| :: vertices[v] == s.vertices[v]
    }

    /** One iteration of that loop: `getVertexVertices`, `beta`, and the weighted sum. */
    method SmoothedPosition(ghost s: Links, i: int) returns (p: Mat<real>)
      requires SubdivisionReady(s) && OriginalsKept(s) && 0 <= i < |s.vertices|
      ensures p == Smoothed(s.vertices, i, Neighbours(s.arena, s.vertices, i))
    {
      assert vertices[i] == s.vertices[i];
      assert FanReady(s.arena, s.vertices, i);
      var neighbors := GetVertexVertices(i);
      ghost var vs := s.vertices;
      assert neighbors == Neighbours(s.arena, vs, i);
      var beta := 3.0 / (8.0 * |neighbors| as real);
      if |neighbors| == 3 {
        beta := 3.0 / 16.0;
      }
      assert beta == Beta(|neighbors|);
      p := WeightedSum(s, i, neighbors, beta);
    }

    /** The vertex's position scaled by `1 - n * beta`, then each neighbour's position scaled by
        `beta` added to it. */
    method WeightedSum(ghost s: Links, i: int, neighbors: seq<int>, beta: real) returns (p: Mat<real>)
      requires OriginalsKept(s) && 0 <= i < |s.vertices| && NeighboursIn(s.vertices, neighbors)
      ensures p == SmoothSum(s.vertices, i, neighbors, beta, |neighbors|)
    {
      ghost var vs := s.vertices;
      p := ScalarMap(vertices[i].position, 1.0 - |neighbors| as real * beta, ScaleBy);
      assert vertices[i] == vs[i];
      for j := 0 to |neighbors|
        invariant p == SmoothSum(vs, i, neighbors, beta, j)
      {
        assert vertices[neighbors[j]] == vs[neighbors[j]];
        p := Elementwise(p, ScalarMap(vertices[neighbors[j]].position, beta, ScaleBy), Plus);
      }
    }

    /** `getVertexNumber`. */
    method GetVertexNumber() returns (n: int)
      ensures n == |vertices|
    {
      n := |vertices|;
    }

    /** `getFaceNumber`: the size of the face list, which `subdivision` does not rebuild. */
    method GetFaceNumber() returns (n: int)
      ensures n == |faces|
    {
      n := |faces|;
    }
  }

  /** The vertex list the last loop of `subdivision` leaves is the one `SubdividedVertices`
      describes. */
  lemma SubdividedAre(s: Links, made: seq<int>, ps: seq<Mat<real>>, vs': seq<Vertex>)
    requires SubdivisionReady(s) && made == Marked(s).made && MadeReady(s.arena, s.vertices, made)
    requires |ps| == |s.vertices| && |vs'| == |s.vertices| + |made|
    requires forall v | 0 <= v < |s.vertices| :: ps[v] == Smoothed(s.vertices, v, Neighbours(s.arena, s.vertices, v))
    requires forall v | 0 <= v < |s.vertices| :: vs'[v] == s.vertices[v].(position := ps[v])
    requires vs'[|s.vertices|..] == NewVertices(s.arena, s.vertices, made)
    ensures vs' == SubdividedVertices(s)
  {
    var vs := s.vertices;
    var smoothed := seq(|vs|, v requires 0 <= v < |vs| => vs[v].(position := Smoothed(vs, v, Neighbours(s.arena, vs, v))));
    assert SubdividedVertices(s) == smoothed + NewVertices(s.arena, vs, made);
    assert vs'[..|vs|] == smoothed;
    assert vs' == vs'[..|vs|] + vs'[|vs|..];
  }

  /** A face arena in which exactly the listed faces have had their normal set is the one the
      face loop leaves. */
  lemma FaceLoopDone(s: Links, math: Math, fa: seq<Face>)
    requires FacesReady(s) && |fa| == |s.faceArena|
    requires forall f | 0 <= f < |fa| ::
               fa[f] == if f in s.faces then FaceWithNormal(math, s.arena, s.vertices, s.faceArena[f]) else s.faceArena[f]
    ensures s.(faceArena := fa) == WithFaceNormals(s, math, |s.faces|)
  {
    var q := WithFaceNormals(s, math, |s.faces|);
    forall f | 0 <= f < |fa| ensures q.faceArena[f] == fa[f] {
      if j :| 0 <= j < |s.faces| && s.faces[j] == f {
        FaceNormalListed(s, math, |s.faces|, j);
      } else {
        FaceNormalUnlisted(s, math, |s.faces|, f);
      }
    }
  }

  /** A vertex list in which every vertex has had its normal set is the one the vertex loop
      leaves. */
  lemma VertexLoopDone(r: Links, math: Math, vs: seq<Vertex>)
    requires |vs| == |r.vertices|
    requires forall u | 0 <= u < |vs| :: vs[u] == WithVertexNormal(math, r.arena, r.faceArena, r.vertices[u])
    ensures r.(vertices := vs) == WithVertexNormals(r, math, |r.vertices|)
  {
    var q := WithVertexNormals(r, math, |r.vertices|);
    forall u | 0 <= u < |vs| ensures q.vertices[u] == vs[u] {
      RewritePrefixAt(r.vertices, |r.vertices|, VertexNormalSetter(math, r.arena, r.faceArena), u);
    }
  }

  /** `position` once the loop over a face's corners has added the first i of them to
      `Vector3d(0.)`. */
  function CornerSum(ps: seq<Mat<real>>, i: nat): (r: Mat<real>)
    requires i <= |ps| && forall j | 0 <= j < |ps| :: IsVector3(ps[j])
    ensures IsVector3(r)
  {
    if i == 0 then Zero3
    else
      var p := CornerSum(ps, i - 1);
      Elementwise3(p, ps[i - 1], Plus);
      Elementwise(p, ps[i - 1], Plus)
  }

  /** After the three corners, dividing by three gives their centroid. */
  lemma CornerSumIsCentroid(ps: seq<Mat<real>>)
    requires |ps| == 3 && forall j | 0 <= j < 3 :: IsVector3(ps[j])
    ensures ScalarMap(CornerSum(ps, 3), 3.0, DivideBy) == Centroid(ps[0], ps[1], ps[2])
  {
    assert CornerSum(ps, 1) == Elementwise(Zero3, ps[0], Plus);
    assert CornerSum(ps, 2) == Elementwise(CornerSum(ps, 1), ps[1], Plus);
    assert CornerSum(ps, 3) == Elementwise(CornerSum(ps, 2), ps[2], Plus);
  }
}
