/** What `updateNormals` (TriMesh.cpp) computes: for every face of the face list, the unit normal
    of the triangle its `getFaceVertices` corners span and the centroid of those corners; then for
    every vertex, the normalised sum of the normals of the faces its fan lists. The two phases are
    folds over the face list and the vertex list, in the order the loops run. */
module MeshNormals {
  import opened Matrices
  import opened MeshTypes
  import opened MeshWalks

  /** `Vector3d(0.)`. */
  const Zero3: Mat<real> := Vector3(0.0, 0.0, 0.0)

  /** `(v1 - v0).cross(v2 - v0).normalize()`: a unit vector along the cross product of two edges. */
  function FaceNormal(math: Math, p0: Mat<real>, p1: Mat<real>, p2: Mat<real>): (n: Mat<real>)
    requires IsVector3(p0) && IsVector3(p1) && IsVector3(p2)
    ensures IsVector3(n)
    ensures exists c :: n == ScalarMap(Cross(Elementwise(p1, p0, Minus), Elementwise(p2, p0, Minus)).value, c, ScaleBy)
  {
    Normalized(math, Cross(Elementwise(p1, p0, Minus), Elementwise(p2, p0, Minus)).value)
  }

  /** `((0 + v0) + v1 + v2) / 3`. */
  function Centroid(p0: Mat<real>, p1: Mat<real>, p2: Mat<real>): (c: Mat<real>)
    requires IsVector3(p0) && IsVector3(p1) && IsVector3(p2)
    ensures IsVector3(c)
  {
    ScalarMap(Elementwise(Elementwise(Elementwise(Zero3, p0, Plus), p1, Plus), p2, Plus), 3.0, DivideBy)
  }

  /** The face normal is orthogonal to both edges it was built from. */
  lemma FaceNormalOrthogonal(math: Math, p0: Mat<real>, p1: Mat<real>, p2: Mat<real>)
    requires IsVector3(p0) && IsVector3(p1) && IsVector3(p2)
    ensures Dot(Elementwise(p1, p0, Minus), FaceNormal(math, p0, p1, p2)) == Ok(0.0)
    ensures Dot(Elementwise(p2, p0, Minus), FaceNormal(math, p0, p1, p2)) == Ok(0.0)
  {
    var ab, ac := Elementwise(p1, p0, Minus), Elementwise(p2, p0, Minus);
    Elementwise3(p1, p0, Minus);
    Elementwise3(p2, p0, Minus);
    var cr := Cross(ab, ac).value;
    CrossIsOrthogonal(ab, ac);
    var n := FaceNormal(math, p0, p1, p2);
    var c :| n == ScalarMap(cr, c, ScaleBy);
    ScalarMap3(cr, c, ScaleBy);
    ScaledDot(ab, cr, c);
    ScaledDot(ac, cr, c);
  }

  /** Scaling the second operand of a dot product scales the result. */
  lemma ScaledDot(a: Mat<real>, b: Mat<real>, c: real)
    requires IsVector3(a) && IsVector3(b)
    ensures Dot(a, ScalarMap(b, c, ScaleBy)) == Ok(c * Dot(a, b).value)
  {
    var m := ScalarMap(b, c, ScaleBy);
    ScalarMap3(b, c, ScaleBy);
    Dot3(a, b);
    Dot3(a, m);
    var x, y := a.data, b.data;
    var d := Dot(a, m);
    assert d.value == x[0] * (y[0] * c) + x[1] * (y[1] * c) + x[2] * (y[2] * c);
    assert d.value == c * Dot(a, b).value;
  }

  /** One component of the cross product of two edges does not depend on which corner they start at. */
  lemma RotatedCrossComponent(a1: real, a2: real, b1: real, b2: real, c1: real, c2: real)
    ensures (a1 - c1) * (b2 - c2) - (a2 - c2) * (b1 - c1) == (b1 - a1) * (c2 - a2) - (b2 - a2) * (c1 - a1)
  {
  }

  /** Starting the corners at the third vertex, as `getFaceVertices` does on a built mesh, gives the
      same normal as starting at the first. */
  lemma FaceNormalRotation(math: Math, p0: Mat<real>, p1: Mat<real>, p2: Mat<real>)
    requires IsVector3(p0) && IsVector3(p1) && IsVector3(p2)
    ensures FaceNormal(math, p2, p0, p1) == FaceNormal(math, p0, p1, p2)
  {
    var x, y := Elementwise(p0, p2, Minus), Elementwise(p1, p2, Minus);
    var u, w := Elementwise(p1, p0, Minus), Elementwise(p2, p0, Minus);
    Elementwise3(p0, p2, Minus);
    Elementwise3(p1, p2, Minus);
    Elementwise3(p1, p0, Minus);
    Elementwise3(p2, p0, Minus);
    CrossComponents(x, y);
    CrossComponents(u, w);
    var a, b, c := p0.data, p1.data, p2.data;
    RotatedCrossComponent(a[1], a[2], b[1], b[2], c[1], c[2]);
    RotatedCrossComponent(a[2], a[0], b[2], b[0], c[2], c[0]);
    RotatedCrossComponent(a[0], a[1], b[0], b[1], c[0], c[1]);
    assert x.data == [a[0] - c[0], a[1] - c[1], a[2] - c[2]];
    assert y.data == [b[0] - c[0], b[1] - c[1], b[2] - c[2]];
    assert u.data == [b[0] - a[0], b[1] - a[1], b[2] - a[2]];
    assert w.data == [c[0] - a[0], c[1] - a[1], c[2] - a[2]];
    var l, r := Cross(x, y).value, Cross(u, w).value;
    assert l.data[0] == r.data[0];
    assert l.data[1] == r.data[1];
    assert l.data[2] == r.data[2];
    Vector3Parts(l);
    Vector3Parts(r);
  }

  /** The centroid is the componentwise mean of the three corners, whatever their order. */
  lemma CentroidIsMean(p0: Mat<real>, p1: Mat<real>, p2: Mat<real>)
    requires IsVector3(p0) && IsVector3(p1) && IsVector3(p2)
    ensures Centroid(p0, p1, p2) == Vector3((p0.data[0] + p1.data[0] + p2.data[0]) / 3.0,
                                            (p0.data[1] + p1.data[1] + p2.data[1]) / 3.0,
                                            (p0.data[2] + p1.data[2] + p2.data[2]) / 3.0)
    ensures Centroid(p2, p0, p1) == Centroid(p0, p1, p2)
  {
    forall q0, q1, q2 | IsVector3(q0) && IsVector3(q1) && IsVector3(q2)
      ensures Centroid(q0, q1, q2) == Vector3((q0.data[0] + q1.data[0] + q2.data[0]) / 3.0,
                                              (q0.data[1] + q1.data[1] + q2.data[1]) / 3.0,
                                              (q0.data[2] + q1.data[2] + q2.data[2]) / 3.0)
    {
      var s1 := Elementwise(Zero3, q0, Plus);
      Elementwise3(Zero3, q0, Plus);
      var s2 := Elementwise(s1, q1, Plus);
      Elementwise3(s1, q1, Plus);
      var s3 := Elementwise(s2, q2, Plus);
      Elementwise3(s2, q2, Plus);
      ScalarMap3(s3, 3.0, DivideBy);
    }
  }

  // ---------------------------------------------------------------------
  // The two loops' shape: records rewritten one after another

  /** The list xs after the loop has visited positions idx[0], ..., idx[k-1] and written at each
      the update of the record found there at the start (a position visited twice gets the same
      record twice). */
  function Rewrite<T>(xs: seq<T>, idx: seq<int>, k: nat, update: T -> T): (r: seq<T>)
    requires k <= |idx| && forall j | 0 <= j < |idx| :: 0 <= idx[j] < |xs|
    ensures |r| == |xs|
  {
    if k == 0 then xs else Rewrite(xs, idx, k - 1, update)[idx[k - 1] := update(xs[idx[k - 1]])]
  }

  /** A visited position holds the update of its original record. */
  lemma {:induction false} RewriteListed<T>(xs: seq<T>, idx: seq<int>, k: nat, update: T -> T, j: nat)
    requires k <= |idx| && forall j | 0 <= j < |idx| :: 0 <= idx[j] < |xs|
    requires j < k
    ensures Rewrite(xs, idx, k, update)[idx[j]] == update(xs[idx[j]])
  {
    if idx[j] != idx[k - 1] {
      RewriteListed(xs, idx, k - 1, update, j);
    }
  }

  /** A position the loop has not visited keeps its record. */
  lemma {:induction false} RewriteUnlisted<T>(xs: seq<T>, idx: seq<int>, k: nat, update: T -> T, i: int)
    requires k <= |idx| && forall j | 0 <= j < |idx| :: 0 <= idx[j] < |xs|
    requires 0 <= i < |xs| && forall j | 0 <= j < k :: idx[j] != i
    ensures Rewrite(xs, idx, k, update)[i] == xs[i]
  {
    if k > 0 {
      RewriteUnlisted(xs, idx, k - 1, update, i);
    }
  }

  /** The list xs after a loop over its first k records has updated each of them. */
  function RewritePrefix<T>(xs: seq<T>, k: nat, update: T -> T): (r: seq<T>)
    requires k <= |xs|
    ensures |r| == |xs|
  {
    if k == 0 then xs else RewritePrefix(xs, k - 1, update)[k - 1 := update(xs[k - 1])]
  }

  /** The first k records are updated and the rest are untouched. */
  lemma {:induction false} RewritePrefixAt<T>(xs: seq<T>, k: nat, update: T -> T, i: int)
    requires k <= |xs| && 0 <= i < |xs|
    ensures RewritePrefix(xs, k, update)[i] == if i < k then update(xs[i]) else xs[i]
  {
    if k > 0 {
      RewritePrefixAt(xs, k - 1, update, i);
    }
  }

  // ---------------------------------------------------------------------
  // The face loop

  predicate PositionsAre3(vs: seq<Vertex>) {
    forall v | 0 <= v < |vs| :: IsVector3(vs[v].position)
  }

  /** The corners of a face whose half-edge is h can be read and name vertices of the list. */
  predicate CornersIn(a: seq<HalfEdge>, vs: seq<Vertex>, h: int) {
    Walkable(a, h)
    && var c := FaceCorners(a, h);
       0 <= c[0] < |vs| && 0 <= c[1] < |vs| && 0 <= c[2] < |vs|
  }

  /** Every face of the face list is a record whose corners can be read. */
  predicate FacesReady(s: Links) {
    PositionsAre3(s.vertices)
    && forall j | 0 <= j < |s.faces| ::
         0 <= s.faces[j] < |s.faceArena| && CornersIn(s.arena, s.vertices, s.faceArena[s.faces[j]].halfEdge)
  }

  /** The normal of the face whose half-edge is h, from its corners in `getFaceVertices` order. */
  function CornerNormal(math: Math, a: seq<HalfEdge>, vs: seq<Vertex>, h: int): (n: Mat<real>)
    requires CornersIn(a, vs, h) && PositionsAre3(vs)
    ensures IsVector3(n)
  {
    var c := FaceCorners(a, h);
    FaceNormal(math, vs[c[0]].position, vs[c[1]].position, vs[c[2]].position)
  }

  function CornerCentroid(a: seq<HalfEdge>, vs: seq<Vertex>, h: int): (p: Mat<real>)
    requires CornersIn(a, vs, h) && PositionsAre3(vs)
    ensures IsVector3(p)
  {
    var c := FaceCorners(a, h);
    Centroid(vs[c[0]].position, vs[c[1]].position, vs[c[2]].position)
  }

  /** The face record after its normal and position are set. */
  function WithNormal(math: Math, a: seq<HalfEdge>, vs: seq<Vertex>, face: Face): Face
    requires CornersIn(a, vs, face.halfEdge) && PositionsAre3(vs)
  {
    face.(normal := Some(CornerNormal(math, a, vs, face.halfEdge)),
          position := Some(CornerCentroid(a, vs, face.halfEdge)))
  }

  /** Face f is a record with a 3-vector normal. */
  predicate HasNormal(fa: seq<Face>, f: int) {
    0 <= f < |fa| && fa[f].normal.Some? && IsVector3(fa[f].normal.value)
  }

  /** Sets the normal and position of a face record whose corners can be read; other records are
      left as they are (the face loop only meets the former). */
  function FaceWithNormal(math: Math, a: seq<HalfEdge>, vs: seq<Vertex>, face: Face): Face {
    if CornersIn(a, vs, face.halfEdge) && PositionsAre3(vs) then WithNormal(math, a, vs, face) else face
  }

  function NormalSetter(math: Math, a: seq<HalfEdge>, vs: seq<Vertex>): Face -> Face {
    (face: Face) => FaceWithNormal(math, a, vs, face)
  }

  /** The structure after the face loop has handled the first k faces of the list. */
  function WithFaceNormals(s: Links, math: Math, k: nat): (r: Links)
    requires FacesReady(s) && k <= |s.faces|
    ensures r.vertices == s.vertices && r.faces == s.faces && r.arena == s.arena
            && r.halfEdges == s.halfEdges && |r.faceArena| == |s.faceArena|
  {
    s.(faceArena := Rewrite(s.faceArena, s.faces, k, NormalSetter(math, s.arena, s.vertices)))
  }

  /** After the face loop has handled the first k faces, the j-th face of the list (j < k) carries
      the normal and centroid of its corners. */
  lemma FaceNormalListed(s: Links, math: Math, k: nat, j: nat)
    requires FacesReady(s) && j < k <= |s.faces|
    ensures CornersIn(s.arena, s.vertices, s.faceArena[s.faces[j]].halfEdge)
    ensures WithFaceNormals(s, math, k).faceArena[s.faces[j]]
            == WithNormal(math, s.arena, s.vertices, s.faceArena[s.faces[j]])
  {
    RewriteListed(s.faceArena, s.faces, k, NormalSetter(math, s.arena, s.vertices), j);
  }

  /** A face record that is none of the first k faces of the list is untouched by the face loop. */
  lemma FaceNormalUnlisted(s: Links, math: Math, k: nat, f: int)
    requires FacesReady(s) && k <= |s.faces| && 0 <= f < |s.faceArena|
    requires forall j | 0 <= j < k :: s.faces[j] != f
    ensures WithFaceNormals(s, math, k).faceArena[f] == s.faceArena[f]
  {
    RewriteUnlisted(s.faceArena, s.faces, k, NormalSetter(math, s.arena, s.vertices), f);
  }

  /** The face loop never moves a face's half-edge. */
  lemma FaceNormalsKeepHalfEdge(s: Links, math: Math, k: nat, f: int)
    requires FacesReady(s) && k <= |s.faces| && 0 <= f < |s.faceArena|
    ensures WithFaceNormals(s, math, k).faceArena[f].halfEdge == s.faceArena[f].halfEdge
  {
    if j :| 0 <= j < k && s.faces[j] == f {
      FaceNormalListed(s, math, k, j);
    } else {
      FaceNormalUnlisted(s, math, k, f);
    }
  }

  // ---------------------------------------------------------------------
  // The vertex loop

  /** The fan from h closes and each of its faces already has a 3-vector normal. */
  ghost predicate FanNormalsReady(a: seq<HalfEdge>, fa: seq<Face>, h: int) {
    ClosedFan(a, h)
    && var fs := FanFaces(a, h, FanSize(a, h));
       forall i | 0 <= i < |fs| :: HasNormal(fa, fs[i])
  }

  /** `normalSum += *face->normal` over a list of faces, from `Vector3d(0)`. */
  function SumFaceNormals(fa: seq<Face>, fs: seq<int>): (r: Mat<real>)
    requires forall i | 0 <= i < |fs| :: HasNormal(fa, fs[i])
    ensures IsVector3(r)
  {
    if |fs| == 0 then Zero3
    else
      assert HasNormal(fa, fs[|fs| - 1]);
      Elementwise(SumFaceNormals(fa, fs[..|fs| - 1]), fa[fs[|fs| - 1]].normal.value, Plus)
  }

  /** A vertex normal: along the sum of the normals of the faces around the vertex. */
  ghost function VertexNormal(math: Math, a: seq<HalfEdge>, fa: seq<Face>, h: int): (n: Mat<real>)
    requires FanNormalsReady(a, fa, h)
    ensures IsVector3(n)
    ensures exists c :: n == ScalarMap(SumFaceNormals(fa, FanFaces(a, h, FanSize(a, h))), c, ScaleBy)
  {
    Normalized(math, SumFaceNormals(fa, FanFaces(a, h, FanSize(a, h))))
  }

  ghost predicate VerticesReady(r: Links) {
    forall v | 0 <= v < |r.vertices| :: FanNormalsReady(r.arena, r.faceArena, r.vertices[v].halfEdge)
  }

  /** Sets the normal of a vertex whose fan is ready; other records are left as they are (the
      vertex loop only meets the former). */
  ghost function WithVertexNormal(math: Math, a: seq<HalfEdge>, fa: seq<Face>, x: Vertex): Vertex {
    if FanNormalsReady(a, fa, x.halfEdge) then x.(normal := Some(VertexNormal(math, a, fa, x.halfEdge))) else x
  }

  ghost function VertexNormalSetter(math: Math, a: seq<HalfEdge>, fa: seq<Face>): Vertex -> Vertex {
    (x: Vertex) => WithVertexNormal(math, a, fa, x)
  }

  /** The structure after the vertex loop has handled the first k vertices. */
  ghost function WithVertexNormals(r: Links, math: Math, k: nat): (q: Links)
    requires k <= |r.vertices|
    ensures q == r.(vertices := q.vertices) && |q.vertices| == |r.vertices|
  {
    r.(vertices := RewritePrefix(r.vertices, k, VertexNormalSetter(math, r.arena, r.faceArena)))
  }

  /** After the vertex loop has handled k vertices, those have their normal set from their fan and
      keep everything else; the rest are untouched. */
  lemma VertexNormalsAt(r: Links, math: Math, k: nat, v: int)
    requires VerticesReady(r) && k <= |r.vertices| && 0 <= v < |r.vertices|
    ensures WithVertexNormals(r, math, k).vertices[v]
            == if v < k then r.vertices[v].(normal := Some(VertexNormal(math, r.arena, r.faceArena, r.vertices[v].halfEdge)))
               else r.vertices[v]
  {
    RewritePrefixAt(r.vertices, k, VertexNormalSetter(math, r.arena, r.faceArena), v);
  }

  // ---------------------------------------------------------------------
  // Both loops

  /** What `updateNormals` needs of the structure: readable corners for every listed face, 3-vector
      positions, and around every vertex a closed fan whose faces are all in the face list. */
  ghost predicate NormalsReady(s: Links) {
    FacesReady(s)
    && forall v | 0 <= v < |s.vertices| ::
         ClosedFan(s.arena, s.vertices[v].halfEdge)
         && var fs := FanFaces(s.arena, s.vertices[v].halfEdge, FanSize(s.arena, s.vertices[v].halfEdge));
            forall i | 0 <= i < |fs| :: fs[i] in s.faces
  }

  /** The face loop gives every fan face a normal, so the vertex loop can run. */
  lemma FaceLoopReadies(s: Links, math: Math)
    requires NormalsReady(s)
    ensures VerticesReady(WithFaceNormals(s, math, |s.faces|))
  {
    var r := WithFaceNormals(s, math, |s.faces|);
    forall v | 0 <= v < |r.vertices|
      ensures FanNormalsReady(r.arena, r.faceArena, r.vertices[v].halfEdge)
    {
      var h := s.vertices[v].halfEdge;
      var fs := FanFaces(s.arena, h, FanSize(s.arena, h));
      forall i | 0 <= i < |fs| ensures HasNormal(r.faceArena, fs[i]) {
        var j :| 0 <= j < |s.faces| && s.faces[j] == fs[i];
        FaceNormalListed(s, math, |s.faces|, j);
      }
    }
  }

  /** The state `updateNormals` leaves when it recomputes. */
  ghost function Normals(s: Links, math: Math): Links
    requires NormalsReady(s)
  {
    FaceLoopReadies(s, math);
    var r := WithFaceNormals(s, math, |s.faces|);
    WithVertexNormals(r, math, |r.vertices|)
  }

  /** `updateNormals` leaves the pointer structure and the sizes of the lists as they were. */
  lemma NormalsKeepStructure(s: Links, math: Math)
    requires NormalsReady(s)
    ensures var q := Normals(s, math);
            && q.arena == s.arena && q.faces == s.faces && q.halfEdges == s.halfEdges
            && |q.faceArena| == |s.faceArena| && |q.vertices| == |s.vertices|
  {
    FaceLoopReadies(s, math);
  }

  /** After `updateNormals` the j-th face of the list carries the normal and the centroid of its
      corners. */
  lemma NormalsFaceListed(s: Links, math: Math, j: nat)
    requires NormalsReady(s) && j < |s.faces|
    ensures CornersIn(s.arena, s.vertices, s.faceArena[s.faces[j]].halfEdge)
    ensures Normals(s, math).faceArena[s.faces[j]] == WithNormal(math, s.arena, s.vertices, s.faceArena[s.faces[j]])
  {
    FaceLoopReadies(s, math);
    FaceNormalListed(s, math, |s.faces|, j);
  }

  /** Face records outside the face list are left as they were. */
  lemma NormalsFaceUnlisted(s: Links, math: Math, f: int)
    requires NormalsReady(s) && 0 <= f < |s.faceArena| && f !in s.faces
    ensures Normals(s, math).faceArena[f] == s.faceArena[f]
  {
    FaceLoopReadies(s, math);
    FaceNormalUnlisted(s, math, |s.faces|, f);
  }

  /** After `updateNormals` every vertex keeps its position, half-edge and index and gets the
      normalised sum of the normals of its fan's faces, read after the face loop. */
  lemma NormalsVertices(s: Links, math: Math, v: int)
    requires NormalsReady(s) && 0 <= v < |s.vertices|
    ensures var r := WithFaceNormals(s, math, |s.faces|);
            && FanNormalsReady(r.arena, r.faceArena, s.vertices[v].halfEdge)
            && Normals(s, math).vertices[v]
               == s.vertices[v].(normal := Some(VertexNormal(math, r.arena, r.faceArena, s.vertices[v].halfEdge)))
  {
    FaceLoopReadies(s, math);
    var r := WithFaceNormals(s, math, |s.faces|);
    VertexNormalsAt(r, math, |r.vertices|, v);
  }
}
