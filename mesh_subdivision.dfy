/** What `subdivision` (TriMesh.cpp:91-146) computes, as functions on the pointer structure that
    `initializeHalfEdgeMesh` left behind.

    The first loop walks the half-edges of every face of the face list. A half-edge that has no
    new vertex yet gets one at its edge point; that vertex is shared with its twin, and its index
    is its position in the vertex list. The loop then emits four index triples per face. The
    combinatorial part is a fold with state `Split`. There, `made` lists the half-edges that
    created new vertices, in order, and the positions of those vertices are computed from `made`
    by `NewVertices`. The smoothing of the original vertices reads the old half-edge structure
    and old positions only, as the source does by collecting `newPositions` before writing any. */
module MeshSubdivision {
  import opened Matrices
  import opened MeshTypes
  import opened MeshWalks
  import opened MeshNormals

  // ---------------------------------------------------------------------
  // Positions

  /** `u * 3. / 8. + v * 3. / 8. + w / 8. + x / 8.`, summed left to right. */
  function EdgePoint(u: Mat<real>, v: Mat<real>, w: Mat<real>, x: Mat<real>): (p: Mat<real>)
    requires IsVector3(u) && IsVector3(v) && IsVector3(w) && IsVector3(x)
    ensures IsVector3(p)
  {
    Elementwise(Elementwise(Elementwise(ScalarMap(ScalarMap(u, 3.0, ScaleBy), 8.0, DivideBy),
                                        ScalarMap(ScalarMap(v, 3.0, ScaleBy), 8.0, DivideBy), Plus),
                            ScalarMap(w, 8.0, DivideBy), Plus),
                ScalarMap(x, 8.0, DivideBy), Plus)
  }

  /** The Loop edge-point mask: 3/8 for the edge's two ends, 1/8 for the two opposite corners. */
  function EdgeMask(u: real, v: real, w: real, x: real): real {
    3.0 / 8.0 * u + 3.0 / 8.0 * v + 1.0 / 8.0 * w + 1.0 / 8.0 * x
  }

  /** Componentwise the edge point is the Loop mask. */
  lemma EdgePointComponents(u: Mat<real>, v: Mat<real>, w: Mat<real>, x: Mat<real>)
    requires IsVector3(u) && IsVector3(v) && IsVector3(w) && IsVector3(x)
    ensures EdgePoint(u, v, w, x)
            == Vector3(EdgeMask(u.data[0], v.data[0], w.data[0], x.data[0]),
                       EdgeMask(u.data[1], v.data[1], w.data[1], x.data[1]),
                       EdgeMask(u.data[2], v.data[2], w.data[2], x.data[2]))
  {
    var u3, v3 := ScalarMap(u, 3.0, ScaleBy), ScalarMap(v, 3.0, ScaleBy);
    ScalarMap3(u, 3.0, ScaleBy);
    ScalarMap3(v, 3.0, ScaleBy);
    var u8, v8 := ScalarMap(u3, 8.0, DivideBy), ScalarMap(v3, 8.0, DivideBy);
    ScalarMap3(u3, 8.0, DivideBy);
    ScalarMap3(v3, 8.0, DivideBy);
    var w8, x8 := ScalarMap(w, 8.0, DivideBy), ScalarMap(x, 8.0, DivideBy);
    ScalarMap3(w, 8.0, DivideBy);
    ScalarMap3(x, 8.0, DivideBy);
    var s1 := Elementwise(u8, v8, Plus);
    Elementwise3(u8, v8, Plus);
    var s2 := Elementwise(s1, w8, Plus);
    Elementwise3(s1, w8, Plus);
    Elementwise3(s2, x8, Plus);
  }

  /** The point is the same whichever of an edge's two half-edges creates it: seen from the twin
      the ends swap and so do the opposite corners. */
  lemma EdgePointShared(u: Mat<real>, v: Mat<real>, w: Mat<real>, x: Mat<real>)
    requires IsVector3(u) && IsVector3(v) && IsVector3(w) && IsVector3(x)
    ensures EdgePoint(v, u, x, w) == EdgePoint(u, v, w, x)
  {
    EdgePointComponents(u, v, w, x);
    EdgePointComponents(v, u, x, w);
  }

  /** The weights sum to one: an edge whose four points coincide gets that point. */
  lemma EdgePointAffine(p: Mat<real>)
    requires IsVector3(p)
    ensures EdgePoint(p, p, p, p) == p
  {
    EdgePointComponents(p, p, p, p);
    Vector3Parts(p);
  }

  /** `beta`: 3/(8n), or 3/16 for a vertex with three neighbours. */
  function Beta(n: nat): real
    requires n > 0
  {
    if n == 3 then 3.0 / 16.0 else 3.0 / (8.0 * n as real)
  }

  /** The weight the vertex keeps, `1 - n * beta`, is 7/16 with three neighbours and 5/8 otherwise,
      so with the n neighbour weights the mask sums to one. */
  lemma CentreWeight(n: nat)
    requires n > 0
    ensures 1.0 - n as real * Beta(n) == if n == 3 then 7.0 / 16.0 else 5.0 / 8.0
    ensures 1.0 - n as real * Beta(n) + n as real * Beta(n) == 1.0
  {
    if n != 3 {
      var m := n as real;
      assert m * (3.0 / (8.0 * m)) == 3.0 / 8.0;
    }
  }

  /** The vertex list has 3-vector positions and the indices of ns name its vertices. */
  predicate NeighboursIn(vs: seq<Vertex>, ns: seq<int>) {
    PositionsAre3(vs) && forall i | 0 <= i < |ns| :: 0 <= ns[i] < |vs|
  }

  /** `newPositions[i]` once the loop over the neighbours has added the first j of them: the
      vertex scaled by `1 - n * beta`, plus each neighbour scaled by `beta`. */
  function SmoothSum(vs: seq<Vertex>, v: int, ns: seq<int>, beta: real, j: nat): (p: Mat<real>)
    requires 0 <= v < |vs| && NeighboursIn(vs, ns) && j <= |ns|
    ensures IsVector3(p)
  {
    if j == 0 then ScalarMap(vs[v].position, 1.0 - |ns| as real * beta, ScaleBy)
    else Elementwise(SmoothSum(vs, v, ns, beta, j - 1), ScalarMap(vs[ns[j - 1]].position, beta, ScaleBy), Plus)
  }

  /** The sum of coordinate c over the first j neighbours. */
  function NeighbourTotal(vs: seq<Vertex>, ns: seq<int>, c: nat, j: nat): real
    requires NeighboursIn(vs, ns) && c < 3 && j <= |ns|
  {
    if j == 0 then 0.0 else NeighbourTotal(vs, ns, c, j - 1) + vs[ns[j - 1]].position.data[c]
  }

  /** Coordinate c of one step of the partial sum. */
  lemma SmoothSumStep(vs: seq<Vertex>, v: int, ns: seq<int>, beta: real, j: nat, c: nat)
    requires 0 <= v < |vs| && NeighboursIn(vs, ns) && j <= |ns| && c < 3
    ensures j == 0 ==> SmoothSum(vs, v, ns, beta, j).data[c] == (1.0 - |ns| as real * beta) * vs[v].position.data[c]
    ensures j > 0 ==> SmoothSum(vs, v, ns, beta, j).data[c]
                      == SmoothSum(vs, v, ns, beta, j - 1).data[c] + beta * vs[ns[j - 1]].position.data[c]
  {
  }

  /** Coordinate c of the partial sum, as the running total the loop keeps. */
  function SmoothCoord(vs: seq<Vertex>, v: int, ns: seq<int>, beta: real, j: nat, c: nat): real
    requires 0 <= v < |vs| && NeighboursIn(vs, ns) && j <= |ns| && c < 3
  {
    if j == 0 then (1.0 - |ns| as real * beta) * vs[v].position.data[c]
    else SmoothCoord(vs, v, ns, beta, j - 1, c) + beta * vs[ns[j - 1]].position.data[c]
  }

  lemma {:induction false} SmoothSumCoord(vs: seq<Vertex>, v: int, ns: seq<int>, beta: real, j: nat, c: nat)
    requires 0 <= v < |vs| && NeighboursIn(vs, ns) && j <= |ns| && c < 3
    ensures SmoothSum(vs, v, ns, beta, j).data[c] == SmoothCoord(vs, v, ns, beta, j, c)
  {
    SmoothSumStep(vs, v, ns, beta, j, c);
    if j > 0 {
      SmoothSumCoord(vs, v, ns, beta, j - 1, c);
    }
  }

  lemma {:induction false} SmoothCoordTotal(vs: seq<Vertex>, v: int, ns: seq<int>, beta: real, j: nat, c: nat)
    requires 0 <= v < |vs| && NeighboursIn(vs, ns) && j <= |ns| && c < 3
    ensures SmoothCoord(vs, v, ns, beta, j, c)
            == (1.0 - |ns| as real * beta) * vs[v].position.data[c] + beta * NeighbourTotal(vs, ns, c, j)
  {
    if j > 0 {
      SmoothCoordTotal(vs, v, ns, beta, j - 1, c);
    }
  }

  /** Coordinate c of the partial sum is the vertex's weighted coordinate plus beta times the
      neighbours' total. */
  lemma SmoothSumComponent(vs: seq<Vertex>, v: int, ns: seq<int>, beta: real, j: nat, c: nat)
    requires 0 <= v < |vs| && NeighboursIn(vs, ns) && j <= |ns| && c < 3
    ensures SmoothSum(vs, v, ns, beta, j).data[c]
            == (1.0 - |ns| as real * beta) * vs[v].position.data[c] + beta * NeighbourTotal(vs, ns, c, j)
  {
    SmoothSumCoord(vs, v, ns, beta, j, c);
    SmoothCoordTotal(vs, v, ns, beta, j, c);
  }

  /** The new position of an original vertex: Loop's vertex mask over its neighbours. */
  function Smoothed(vs: seq<Vertex>, v: int, ns: seq<int>): (p: Mat<real>)
    requires 0 <= v < |vs| && NeighboursIn(vs, ns) && 0 < |ns|
    ensures IsVector3(p)
  {
    SmoothSum(vs, v, ns, Beta(|ns|), |ns|)
  }

  lemma {:induction false} FlatTotal(vs: seq<Vertex>, ns: seq<int>, c: nat, j: nat, x: real)
    requires NeighboursIn(vs, ns) && c < 3 && j <= |ns|
    requires forall i | 0 <= i < |ns| :: vs[ns[i]].position.data[c] == x
    ensures NeighbourTotal(vs, ns, c, j) == j as real * x
  {
    if j > 0 {
      FlatTotal(vs, ns, c, j - 1, x);
    }
  }

  /** The mask's weights sum to one: a vertex whose neighbours all sit where it does stays put. */
  lemma SmoothedFlat(vs: seq<Vertex>, v: int, ns: seq<int>)
    requires 0 <= v < |vs| && NeighboursIn(vs, ns) && 0 < |ns|
    requires forall i | 0 <= i < |ns| :: vs[ns[i]].position == vs[v].position
    ensures Smoothed(vs, v, ns) == vs[v].position
  {
    var p, n := vs[v].position, |ns|;
    var r := Smoothed(vs, v, ns);
    CentreWeight(n);
    forall c | 0 <= c < 3 ensures r.data[c] == p.data[c] {
      SmoothSumComponent(vs, v, ns, Beta(n), n, c);
      FlatTotal(vs, ns, c, n, p.data[c]);
      assert r.data[c] == (1.0 - n as real * Beta(n)) * p.data[c] + Beta(n) * (n as real * p.data[c]);
    }
    Vector3Parts(r);
    Vector3Parts(p);
  }

  // ---------------------------------------------------------------------
  // What the first loop needs of the structure

  /** Three steps along `next` from h come back to h through two other half-edges. */
  predicate Triangle(a: seq<HalfEdge>, h: int) {
    Walkable(a, h) && a[a[a[h].next].next].next == h && a[h].next != h && a[a[h].next].next != h
  }

  /** The half-edge i steps along `next` from h0. */
  function Around(a: seq<HalfEdge>, h0: int, i: nat): (h: int)
    requires Walkable(a, h0) && i < 3
    ensures 0 <= h < |a|
  {
    if i == 0 then h0 else if i == 1 then a[h0].next else a[a[h0].next].next
  }

  /** On a triangle the successor of the i-th half-edge is the (i+1)-th, modulo 3, and the three are
      distinct. */
  lemma AroundNext(a: seq<HalfEdge>, h0: int, i: nat)
    requires Triangle(a, h0) && i < 3
    ensures a[Around(a, h0, i)].next == Around(a, h0, (i + 1) % 3)
    ensures forall j | 0 <= j < 3 && j != i :: Around(a, h0, j) != Around(a, h0, i)
  {
  }

  /** The half-edge h can create its edge point: its corners and the far corner of its twin name
      vertices, and its twin exists and points back at it. */
  predicate EdgeReady(a: seq<HalfEdge>, vs: seq<Vertex>, h: int) {
    CornersIn(a, vs, h)
    && var o := a[h].opposite;
       Walkable(a, o) && a[o].opposite == h && 0 <= FaceCorners(a, o)[2] < |vs|
  }

  /** A face whose half-edge cycle the loops of `subdivision` can walk. */
  predicate FaceSplittable(a: seq<HalfEdge>, vs: seq<Vertex>, h: int) {
    Triangle(a, h) && EdgeReady(a, vs, h) && EdgeReady(a, vs, a[h].next) && EdgeReady(a, vs, a[a[h].next].next)
  }

  /** The j-th face of the list names a record and its half-edge. */
  function FaceEdge(s: Links, j: nat): int
    requires j < |s.faces| && 0 <= s.faces[j] < |s.faceArena|
  {
    s.faceArena[s.faces[j]].halfEdge
  }

  /** What `subdivision` needs of the structure it walks: 3-vector positions, every vertex's
      `index` equal to its position, and faces whose cycles are triangles with twins everywhere. */
  predicate SplitReady(s: Links) {
    PositionsAre3(s.vertices)
    && (forall v | 0 <= v < |s.vertices| :: s.vertices[v].index == v)
    && forall j | 0 <= j < |s.faces| ::
         0 <= s.faces[j] < |s.faceArena| && FaceSplittable(s.arena, s.vertices, FaceEdge(s, j))
  }

  lemma SplittableAround(a: seq<HalfEdge>, vs: seq<Vertex>, h0: int, i: nat)
    requires FaceSplittable(a, vs, h0) && i < 3
    ensures EdgeReady(a, vs, Around(a, h0, i))
  {
  }

  // ---------------------------------------------------------------------
  // The first loop

  /** The state of the first loop: the half-edges that created new vertices, in order; the map
      `newVertexIndices`; and `newFaceIndices`. */
  datatype Split = Split(made: seq<int>, marks: map<int, int>, triples: seq<Triple>)

  /** One iteration of the marking do-while at h. A half-edge without a new vertex gets the next
      one, whose index is the vertex count before the loop plus the number made so far; its twin
      gets the same index. */
  function MarkEdge(st: Split, a: seq<HalfEdge>, base: int, h: int): (r: Split)
    requires 0 <= h < |a|
    ensures r.triples == st.triples && h in r.marks
    ensures forall g | g in st.marks :: g in r.marks
  {
    if h in st.marks then st
    else
      var index := base + |st.made|;
      st.(made := st.made + [h], marks := st.marks[a[h].opposite := index][h := index])
  }

  /** The marking do-while after i iterations from h0. */
  function MarkAround(st: Split, a: seq<HalfEdge>, base: int, h0: int, i: nat): (r: Split)
    requires Walkable(a, h0) && i <= 3
    ensures r.triples == st.triples
    ensures forall g | g in st.marks :: g in r.marks
    ensures forall j | 0 <= j < i :: Around(a, h0, j) in r.marks
  {
    if i == 0 then st else MarkMore(MarkAround(st, a, base, h0, i - 1), a, base, h0, i - 1)
  }

  /** Iteration i of the marking loop, keeping what earlier iterations marked. */
  function MarkMore(st: Split, a: seq<HalfEdge>, base: int, h0: int, i: nat): (r: Split)
    requires Walkable(a, h0) && i < 3
    requires forall j | 0 <= j < i :: Around(a, h0, j) in st.marks
    ensures r.triples == st.triples
    ensures forall g | g in st.marks :: g in r.marks
    ensures forall j | 0 <= j <= i :: Around(a, h0, j) in r.marks
  {
    MarkEdge(st, a, base, Around(a, h0, i))
  }

  /** The triple the emitting do-while pushes at the i-th half-edge g:
      `(newVertexIndices[g], g->next->startVertex->index, newVertexIndices[g->next])`. */
  function CornerTriple(st: Split, a: seq<HalfEdge>, vs: seq<Vertex>, h0: int, i: nat): Triple
    requires Triangle(a, h0) && i < 3 && CornersIn(a, vs, h0)
    requires forall j | 0 <= j < 3 :: Around(a, h0, j) in st.marks
  {
    var g := Around(a, h0, i);
    AroundNext(a, h0, i);
    var n := a[g].next;
    Triple(st.marks[g], vs[a[n].startVertex].index, st.marks[n])
  }

  /** The emitting do-while after i iterations from h0. */
  function EmitAround(st: Split, a: seq<HalfEdge>, vs: seq<Vertex>, h0: int, i: nat): (r: Split)
    requires Triangle(a, h0) && i <= 3 && CornersIn(a, vs, h0)
    requires forall j | 0 <= j < 3 :: Around(a, h0, j) in st.marks
    ensures r == st.(triples := r.triples) && |r.triples| == |st.triples| + i
  {
    if i == 0 then st
    else
      var p := EmitAround(st, a, vs, h0, i - 1);
      p.(triples := p.triples + [CornerTriple(st, a, vs, h0, i - 1)])
  }

  /** The centre triple: the three new vertices of the face. */
  function CentreTriple(st: Split, a: seq<HalfEdge>, h0: int): Triple
    requires Walkable(a, h0)
    requires forall j | 0 <= j < 3 :: Around(a, h0, j) in st.marks
  {
    Triple(st.marks[Around(a, h0, 0)], st.marks[Around(a, h0, 1)], st.marks[Around(a, h0, 2)])
  }

  /** One iteration of the loop over the faces: mark its three half-edges, then emit its three
      corner triples and the centre triple. */
  function SplitFace(st: Split, a: seq<HalfEdge>, vs: seq<Vertex>, h0: int): (r: Split)
    requires FaceSplittable(a, vs, h0)
  {
    var m := MarkAround(st, a, |vs|, h0, 3);
    m.(triples := FaceTriples(m, a, vs, h0))
  }

  /** The iteration of the loop over the faces that handles the j-th face. */
  function FaceStep(s: Links): (Split, nat) -> Split {
    (st: Split, j: nat) =>
      if SplitReady(s) && j < |s.faces| then SplitFace(st, s.arena, s.vertices, FaceEdge(s, j)) else st
  }

  /** k iterations of a loop over faces, from the empty state. */
  function Iterate(step: (Split, nat) -> Split, k: nat): Split {
    if k == 0 then Split([], map[], []) else step(Iterate(step, k - 1), k - 1)
  }

  lemma {:induction false} IterateKeeps(step: (Split, nat) -> Split, k: nat, inv: (nat, Split) -> bool)
    requires inv(0, Split([], map[], []))
    requires forall j: nat, st | j < k && inv(j, st) :: inv(j + 1, step(st, j))
    ensures inv(k, Iterate(step, k))
  {
    if k > 0 {
      IterateKeeps(step, k - 1, inv);
    }
  }

  /** The loop over the faces after the first k of them. */
  function SplitFaces(s: Links, k: nat): (r: Split)
    requires SplitReady(s) && k <= |s.faces|
  {
    Iterate(FaceStep(s), k)
  }

  // ---------------------------------------------------------------------
  // What the first loop keeps

  /** A marked half-edge has a twin that points back at it and carries the same new vertex; that
      vertex is one of those made so far (base is the vertex count before the loop), and the
      half-edge is the one that made it or that one's twin. */
  predicate MarkedPair(a: seq<HalfEdge>, base: int, st: Split, g: int)
    requires g in st.marks
  {
    0 <= g < |a|
    && var o := a[g].opposite;
       0 <= o < |a| && a[o].opposite == g && o in st.marks && st.marks[o] == st.marks[g]
       && base <= st.marks[g] < base + |st.made|
       && (st.made[st.marks[g] - base] == g || st.made[st.marks[g] - base] == o)
  }

  /** The invariant of `newVertexIndices`: every marked half-edge is paired as above, and the i-th
      vertex made is `base + i` and belongs to the half-edge that made it. */
  ghost predicate MarksSound(a: seq<HalfEdge>, base: int, st: Split) {
    (forall g | g in st.marks :: MarkedPair(a, base, st, g))
    && (forall i | 0 <= i < |st.made| :: st.made[i] in st.marks && st.marks[st.made[i]] == base + i)
  }

  /** One new vertex per undirected edge: two marked half-edges share a new vertex only when they
      are the same half-edge or twins. */
  lemma OneVertexPerEdge(a: seq<HalfEdge>, base: int, st: Split, g: int, g': int)
    requires MarksSound(a, base, st) && g in st.marks && g' in st.marks && st.marks[g] == st.marks[g']
    ensures g' == g || g' == a[g].opposite
  {
    assert MarkedPair(a, base, st, g);
    assert MarkedPair(a, base, st, g');
  }

  /** The half-edge can be marked: it and its twin exist and the twin points back. */
  predicate Twinned(a: seq<HalfEdge>, h: int) {
    0 <= h < |a| && 0 <= a[h].opposite < |a| && a[a[h].opposite].opposite == h
  }

  /** Marking keeps the invariant, keeps every earlier entry, and only ever appends to `made`. */
  lemma MarkEdgeSound(st: Split, a: seq<HalfEdge>, base: int, h: int)
    requires MarksSound(a, base, st) && Twinned(a, h)
    ensures var r := MarkEdge(st, a, base, h);
            && MarksSound(a, base, r)
            && (forall g | g in st.marks :: r.marks[g] == st.marks[g])
            && st.made <= r.made
  {
    if h !in st.marks {
      var o, index := a[h].opposite, base + |st.made|;
      if o in st.marks {
        assert false;
      }
      var r := MarkEdge(st, a, base, h);
      assert r.marks == st.marks[o := index][h := index];
      forall g | g in st.marks ensures g != h && g != o && r.marks[g] == st.marks[g] {
      }
      forall g | g in r.marks ensures MarkedPair(a, base, r, g) {
        if g != h && g != o {
          assert MarkedPair(a, base, st, g);
        }
      }
      forall i | 0 <= i < |r.made| ensures r.made[i] in r.marks && r.marks[r.made[i]] == base + i {
        if i < |st.made| {
          assert r.made[i] == st.made[i];
        }
      }
    }
  }

  /** Every half-edge that made a vertex can compute its edge point. */
  predicate MadeReady(a: seq<HalfEdge>, vs: seq<Vertex>, made: seq<int>) {
    forall i | 0 <= i < |made| :: EdgeReady(a, vs, made[i])
  }

  /** Marking a half-edge that can compute its edge point keeps every vertex made computable. */
  lemma MarkEdgeReady(st: Split, a: seq<HalfEdge>, vs: seq<Vertex>, h: int)
    requires MadeReady(a, vs, st.made) && EdgeReady(a, vs, h)
    ensures MadeReady(a, vs, MarkEdge(st, a, |vs|, h).made)
  {
    var r := MarkEdge(st, a, |vs|, h);
    forall k | 0 <= k < |r.made| ensures EdgeReady(a, vs, r.made[k]) {
      if k < |st.made| {
        assert r.made[k] == st.made[k];
      }
    }
  }

  /** One iteration of the marking do-while keeps the invariant and earlier entries. */
  lemma MarkMoreSound(p: Split, a: seq<HalfEdge>, vs: seq<Vertex>, h0: int, i: nat)
    requires FaceSplittable(a, vs, h0) && i < 3
    requires forall j | 0 <= j < i :: Around(a, h0, j) in p.marks
    requires MarksSound(a, |vs|, p) && MadeReady(a, vs, p.made)
    ensures var r := MarkMore(p, a, |vs|, h0, i);
            && MarksSound(a, |vs|, r) && MadeReady(a, vs, r.made)
            && (forall g | g in p.marks :: r.marks[g] == p.marks[g])
            && p.made <= r.made
  {
    var h := Around(a, h0, i);
    SplittableAround(a, vs, h0, i);
    MarkEdgeSound(p, a, |vs|, h);
    MarkEdgeReady(p, a, vs, h);
  }

  /** The marking do-while keeps the invariant and earlier entries, and appends only half-edges of
      the face to `made`. */
  lemma {:induction false} MarkAroundSound(st: Split, a: seq<HalfEdge>, vs: seq<Vertex>, h0: int, i: nat)
    requires FaceSplittable(a, vs, h0) && i <= 3
    requires MarksSound(a, |vs|, st) && MadeReady(a, vs, st.made)
    ensures var r := MarkAround(st, a, |vs|, h0, i);
            && MarksSound(a, |vs|, r) && MadeReady(a, vs, r.made)
            && (forall g | g in st.marks :: r.marks[g] == st.marks[g])
            && st.made <= r.made
  {
    if i > 0 {
      var p := MarkAround(st, a, |vs|, h0, i - 1);
      MarkAroundSound(st, a, vs, h0, i - 1);
      MarkMoreSound(p, a, vs, h0, i - 1);
      var r := MarkMore(p, a, |vs|, h0, i - 1);
      assert MarkAround(st, a, |vs|, h0, i) == r;
      PrefixChain(st.made, p.made, r.made);
    }
  }

  lemma PrefixChain(x: seq<int>, y: seq<int>, z: seq<int>)
    requires x <= y && y <= z
    ensures x <= z
  {
    assert z[..|y|] == y;
    assert z[..|x|] == y[..|x|];
  }

  /** Every entry of every triple names one of n vertices. */
  lemma TriplesInGrows(ts: seq<Triple>, n: nat, n': nat)
    requires TriplesIn(ts, n) && n <= n'
    ensures TriplesIn(ts, n')
  {
  }

  /** The i-th of the four faces a triangle becomes, named by the new vertices of its half-edges
      and by its corners: for i < 3 the corner face at the end of the i-th half-edge, for i == 3
      the middle face. */
  function ChildTriple(a: seq<HalfEdge>, marks: map<int, int>, h0: int, i: nat): (t: Triple)
    requires Walkable(a, h0) && i < 4 && forall j | 0 <= j < 3 :: Around(a, h0, j) in marks
    ensures i < 3 ==> t.b == FaceCorners(a, h0)[(i + 1) % 3]
    ensures t.a == marks[Around(a, h0, i % 3)]
  {
    if i == 3 then Triple(marks[Around(a, h0, 0)], marks[Around(a, h0, 1)], marks[Around(a, h0, 2)])
    else Triple(marks[Around(a, h0, i)], FaceCorners(a, h0)[(i + 1) % 3], marks[Around(a, h0, (i + 1) % 3)])
  }

  /** The four triples from position base on are the four faces the triangle at h0 becomes. */
  ghost predicate FaceEmitted(a: seq<HalfEdge>, marks: map<int, int>, ts: seq<Triple>, base: nat, h0: int)
    requires Walkable(a, h0) && base + 4 <= |ts| && forall j | 0 <= j < 3 :: Around(a, h0, j) in marks
  {
    forall i | 0 <= i < 4 :: ts[base + i] == ChildTriple(a, marks, h0, i)
  }

  /** Entries kept and marks kept keep what a face emitted. */
  lemma EmittedKept(a: seq<HalfEdge>, p: Split, r: Split, base: nat, h0: int)
    requires Walkable(a, h0) && base + 4 <= |p.triples| && p.triples <= r.triples
    requires forall j | 0 <= j < 3 :: Around(a, h0, j) in p.marks
    requires forall g | g in p.marks :: g in r.marks && r.marks[g] == p.marks[g]
    requires FaceEmitted(a, p.marks, p.triples, base, h0)
    ensures FaceEmitted(a, r.marks, r.triples, base, h0)
  {
    var g0, g1, g2 := Around(a, h0, 0), Around(a, h0, 1), Around(a, h0, 2);
    assert r.marks[g0] == p.marks[g0] && r.marks[g1] == p.marks[g1] && r.marks[g2] == p.marks[g2];
    forall i | 0 <= i < 4 ensures r.triples[base + i] == ChildTriple(a, r.marks, h0, i) {
      assert r.triples[base + i] == p.triples[base + i] == ChildTriple(a, p.marks, h0, i);
    }
  }

  /** What the loop over the faces has produced after k faces: the map invariant, four triples per
      face naming existing vertices, every half-edge of the faces walked marked, each face's four
      triples in place, and edge points computable for every vertex made. */
  ghost predicate SplitDone(s: Links, k: nat, st: Split)
    requires SplitReady(s) && k <= |s.faces|
  {
    MarksSound(s.arena, |s.vertices|, st) && MadeReady(s.arena, s.vertices, st.made)
    && |st.triples| == 4 * k && TriplesIn(st.triples, |s.vertices| + |st.made|)
    && (forall j, i | 0 <= j < k && 0 <= i < 3 :: Around(s.arena, FaceEdge(s, j), i) in st.marks)
    && forall j | 0 <= j < k :: FaceEmitted(s.arena, st.marks, st.triples, 4 * j, FaceEdge(s, j))
  }

  /** The emitting do-while appends the corner triples in order. */
  lemma {:induction false} EmitAroundAt(m: Split, a: seq<HalfEdge>, vs: seq<Vertex>, h0: int, i: nat, l: nat)
    requires Triangle(a, h0) && i <= 3 && CornersIn(a, vs, h0)
    requires forall j | 0 <= j < 3 :: Around(a, h0, j) in m.marks
    requires l < |m.triples| + i
    ensures EmitAround(m, a, vs, h0, i).triples[l]
            == if l < |m.triples| then m.triples[l] else CornerTriple(m, a, vs, h0, l - |m.triples|)
  {
    if i > 0 && l < |m.triples| + i - 1 {
      EmitAroundAt(m, a, vs, h0, i - 1, l);
    }
  }

  /** Corner triple i of a face: the new vertex of its i-th half-edge, the corner where that
      half-edge ends, and the new vertex of the next half-edge. */
  lemma CornerTripleIs(m: Split, a: seq<HalfEdge>, vs: seq<Vertex>, h0: int, i: nat)
    requires Triangle(a, h0) && i < 3 && CornersIn(a, vs, h0)
    requires forall j | 0 <= j < 3 :: Around(a, h0, j) in m.marks
    requires forall v | 0 <= v < |vs| :: vs[v].index == v
    ensures CornerTriple(m, a, vs, h0, i)
            == Triple(m.marks[Around(a, h0, i)], FaceCorners(a, h0)[(i + 1) % 3], m.marks[Around(a, h0, (i + 1) % 3)])
  {
    AroundNext(a, h0, i);
  }

  /** The triples of one face name the new vertices of its half-edges and its corners. */
  lemma FaceTriplesIn(m: Split, a: seq<HalfEdge>, vs: seq<Vertex>, h0: int)
    requires FaceSplittable(a, vs, h0) && (forall v | 0 <= v < |vs| :: vs[v].index == v)
    requires MarksSound(a, |vs|, m) && forall j | 0 <= j < 3 :: Around(a, h0, j) in m.marks
    ensures forall i | 0 <= i < 3 :: TripleIn(CornerTriple(m, a, vs, h0, i), |vs| + |m.made|)
    ensures TripleIn(CentreTriple(m, a, h0), |vs| + |m.made|)
  {
    forall i | 0 <= i < 3 ensures TripleIn(CornerTriple(m, a, vs, h0, i), |vs| + |m.made|) {
      CornerTripleIs(m, a, vs, h0, i);
      assert MarkedPair(a, |vs|, m, Around(a, h0, i));
      assert MarkedPair(a, |vs|, m, Around(a, h0, (i + 1) % 3));
    }
    assert MarkedPair(a, |vs|, m, Around(a, h0, 0));
    assert MarkedPair(a, |vs|, m, Around(a, h0, 1));
    assert MarkedPair(a, |vs|, m, Around(a, h0, 2));
  }

  /** The map invariant does not look at the emitted triples. */
  lemma MarksSoundTriples(a: seq<HalfEdge>, base: int, st: Split, ts: seq<Triple>)
    requires MarksSound(a, base, st)
    ensures MarksSound(a, base, st.(triples := ts))
  {
    var r := st.(triples := ts);
    forall g | g in r.marks ensures MarkedPair(a, base, r, g) {
      assert MarkedPair(a, base, st, g);
    }
  }

  /** The triples one face emits, after those already emitted. */
  function FaceTriples(m: Split, a: seq<HalfEdge>, vs: seq<Vertex>, h0: int): (ts: seq<Triple>)
    requires FaceSplittable(a, vs, h0)
    requires forall j | 0 <= j < 3 :: Around(a, h0, j) in m.marks
    ensures |ts| == |m.triples| + 4
  {
    EmitAround(m, a, vs, h0, 3).triples + [CentreTriple(m, a, h0)]
  }

  /** The emitting loop keeps the triples already there and adds four that name existing vertices. */
  lemma FaceTriplesSound(m: Split, a: seq<HalfEdge>, vs: seq<Vertex>, h0: int, n0: nat)
    requires FaceSplittable(a, vs, h0) && (forall v | 0 <= v < |vs| :: vs[v].index == v)
    requires forall j | 0 <= j < 3 :: Around(a, h0, j) in m.marks
    requires MarksSound(a, |vs|, m) && n0 <= |vs| + |m.made| && TriplesIn(m.triples, n0)
    ensures var ts := FaceTriples(m, a, vs, h0);
            TriplesIn(ts, |vs| + |m.made|) && m.triples <= ts
  {
    var ts := FaceTriples(m, a, vs, h0);
    FaceTriplesIn(m, a, vs, h0);
    var n := |vs| + |m.made|;
    TriplesInGrows(m.triples, n0, n);
    forall l | 0 <= l < |ts| ensures TripleIn(ts[l], n) {
      if l < |m.triples| + 3 {
        EmitAroundAt(m, a, vs, h0, 3, l);
      }
    }
    forall l | 0 <= l < |m.triples| ensures ts[l] == m.triples[l] {
      EmitAroundAt(m, a, vs, h0, 3, l);
    }
  }

  /** The emitting loop appends the four faces the triangle becomes. */
  lemma FaceTriplesEmitted(m: Split, a: seq<HalfEdge>, vs: seq<Vertex>, h0: int)
    requires FaceSplittable(a, vs, h0) && (forall v | 0 <= v < |vs| :: vs[v].index == v)
    requires forall j | 0 <= j < 3 :: Around(a, h0, j) in m.marks
    ensures FaceEmitted(a, m.marks, FaceTriples(m, a, vs, h0), |m.triples|, h0)
  {
    var ts := FaceTriples(m, a, vs, h0);
    forall i | 0 <= i < 4 ensures ts[|m.triples| + i] == ChildTriple(a, m.marks, h0, i) {
      if i < 3 {
        EmitAroundAt(m, a, vs, h0, 3, |m.triples| + i);
        CornerTripleIs(m, a, vs, h0, i);
      }
    }
  }

  /** What one iteration of the loop over the faces guarantees of the state r it leaves, from the
      state st it started in. */
  ghost predicate StepKeeps(a: seq<HalfEdge>, vs: seq<Vertex>, h0: int, st: Split, r: Split)
    requires Walkable(a, h0)
  {
    && MarksSound(a, |vs|, r) && MadeReady(a, vs, r.made) && TriplesIn(r.triples, |vs| + |r.made|)
    && (forall g | g in st.marks :: g in r.marks && r.marks[g] == st.marks[g])
    && (forall i | 0 <= i < 3 :: Around(a, h0, i) in r.marks)
    && st.made <= r.made && st.triples <= r.triples && |r.triples| == |st.triples| + 4
    && FaceEmitted(a, r.marks, r.triples, |st.triples|, h0)
  }

  /** The marking pass and the emitting pass together keep what StepKeeps says. */
  lemma StepKeepsParts(st: Split, a: seq<HalfEdge>, vs: seq<Vertex>, h0: int, m: Split, ts: seq<Triple>)
    requires Walkable(a, h0) && forall j | 0 <= j < 3 :: Around(a, h0, j) in m.marks
    requires MarksSound(a, |vs|, m) && MadeReady(a, vs, m.made)
    requires (forall g | g in st.marks :: g in m.marks && m.marks[g] == st.marks[g]) && st.made <= m.made
    requires m.triples == st.triples && |ts| == |st.triples| + 4
    requires TriplesIn(ts, |vs| + |m.made|) && m.triples <= ts && FaceEmitted(a, m.marks, ts, |m.triples|, h0)
    ensures StepKeeps(a, vs, h0, st, m.(triples := ts))
  {
    MarksSoundTriples(a, |vs|, m, ts);
  }

  /** One iteration of the loop over the faces keeps the map invariant and every earlier entry,
      appends four triples that name existing vertices, and marks the face's three half-edges. */
  lemma SplitFaceStep(st: Split, a: seq<HalfEdge>, vs: seq<Vertex>, h0: int)
    requires FaceSplittable(a, vs, h0) && (forall v | 0 <= v < |vs| :: vs[v].index == v)
    requires MarksSound(a, |vs|, st) && MadeReady(a, vs, st.made) && TriplesIn(st.triples, |vs| + |st.made|)
    ensures StepKeeps(a, vs, h0, st, SplitFace(st, a, vs, h0))
  {
    var m := MarkAround(st, a, |vs|, h0, 3);
    MarkAroundSound(st, a, vs, h0, 3);
    var ts := FaceTriples(m, a, vs, h0);
    FaceTriplesSound(m, a, vs, h0, |vs| + |st.made|);
    FaceTriplesEmitted(m, a, vs, h0);
    StepKeepsParts(st, a, vs, h0, m, ts);
  }

  /** An iteration that marks the half-edges of face k - 1 (h) and keeps earlier marks keeps every
      face walked so far marked. */
  lemma MarkedNext(s: Links, k: nat, h: int, p: Split, r: Split)
    requires SplitReady(s) && 0 < k <= |s.faces| && h == FaceEdge(s, k - 1)
    requires forall j, i | 0 <= j < k - 1 && 0 <= i < 3 :: Around(s.arena, FaceEdge(s, j), i) in p.marks
    requires forall g | g in p.marks :: g in r.marks
    requires forall i | 0 <= i < 3 :: Around(s.arena, h, i) in r.marks
    ensures forall j, i | 0 <= j < k && 0 <= i < 3 :: Around(s.arena, FaceEdge(s, j), i) in r.marks
  {
    forall j, i | 0 <= j < k && 0 <= i < 3 ensures Around(s.arena, FaceEdge(s, j), i) in r.marks {
      if j < k - 1 {
        assert Around(s.arena, FaceEdge(s, j), i) in p.marks;
      }
    }
  }

  /** An iteration that emits the faces of face k - 1 (h) after the earlier ones, keeping earlier
      triples and marks, keeps every face walked so far emitted. */
  lemma EmittedNext(s: Links, k: nat, h: int, p: Split, r: Split)
    requires SplitReady(s) && 0 < k <= |s.faces| && h == FaceEdge(s, k - 1)
    requires SplitDone(s, k - 1, p)
    requires forall g | g in p.marks :: g in r.marks && r.marks[g] == p.marks[g]
    requires p.triples <= r.triples && |r.triples| == |p.triples| + 4
    requires forall j, i | 0 <= j < k && 0 <= i < 3 :: Around(s.arena, FaceEdge(s, j), i) in r.marks
    requires FaceEmitted(s.arena, r.marks, r.triples, |p.triples|, h)
    ensures forall j | 0 <= j < k :: FaceEmitted(s.arena, r.marks, r.triples, 4 * j, FaceEdge(s, j))
  {
    forall j | 0 <= j < k ensures FaceEmitted(s.arena, r.marks, r.triples, 4 * j, FaceEdge(s, j)) {
      if j < k - 1 {
        EmittedKept(s.arena, p, r, 4 * j, FaceEdge(s, j));
      }
    }
  }

  /** An iteration that keeps what StepKeeps says keeps what the loop has produced. */
  lemma SplitDoneNext(s: Links, k: nat, p: Split, r: Split)
    requires SplitReady(s) && 0 < k <= |s.faces| && SplitDone(s, k - 1, p)
    requires StepKeeps(s.arena, s.vertices, FaceEdge(s, k - 1), p, r)
    ensures SplitDone(s, k, r)
  {
    var h := FaceEdge(s, k - 1);
    MarkedNext(s, k, h, p, r);
    EmittedNext(s, k, h, p, r);
  }

  /** The loop over the faces produces four triples per face naming existing vertices, marks every
      half-edge of every face it walks, and keeps the map invariant. */
  lemma {:induction false} SplitFacesDone(s: Links, k: nat)
    requires SplitReady(s) && k <= |s.faces|
    ensures SplitDone(s, k, SplitFaces(s, k))
  {
    if k > 0 {
      var inv := (j: nat, st: Split) => SplitReady(s) && j <= |s.faces| && SplitDone(s, j, st);
      forall j: nat, st | j < k && inv(j, st) ensures inv(j + 1, FaceStep(s)(st, j)) {
        SplitFaceStep(st, s.arena, s.vertices, FaceEdge(s, j));
        SplitDoneNext(s, j + 1, st, FaceStep(s)(st, j));
      }
      IterateKeeps(FaceStep(s), k, inv);
    }
  }

  // ---------------------------------------------------------------------
  // The new vertices

  /** The edge point of the edge h walks: its two ends, the far corner of its face and the far
      corner of its twin's face. */
  function EdgeVertex(a: seq<HalfEdge>, vs: seq<Vertex>, h: int): (p: Mat<real>)
    requires PositionsAre3(vs) && EdgeReady(a, vs, h)
    ensures IsVector3(p)
  {
    var c, x := FaceCorners(a, h), FaceCorners(a, a[h].opposite)[2];
    EdgePoint(vs[c[0]].position, vs[c[1]].position, vs[c[2]].position, vs[x].position)
  }

  /** The twin of h runs the other way along the same edge: it starts where h ends and ends where
      h starts. */
  predicate TwinReversed(a: seq<HalfEdge>, h: int) {
    Twinned(a, h) && Walkable(a, h) && Walkable(a, a[h].opposite)
    && a[a[h].opposite].startVertex == a[a[h].next].startVertex
    && a[a[a[h].opposite].next].startVertex == a[h].startVertex
  }

  /** Either half-edge of an edge creates the same vertex: from the twin the ends swap and so do
      the far corners. */
  lemma EdgeVertexShared(a: seq<HalfEdge>, vs: seq<Vertex>, h: int)
    requires PositionsAre3(vs) && EdgeReady(a, vs, h) && TwinReversed(a, h)
    ensures EdgeReady(a, vs, a[h].opposite) && TwinReversed(a, a[h].opposite)
    ensures EdgeVertex(a, vs, a[h].opposite) == EdgeVertex(a, vs, h)
  {
    var o := a[h].opposite;
    var c, d := FaceCorners(a, h), FaceCorners(a, o);
    assert d[0] == c[1] && d[1] == c[0];
    EdgePointShared(vs[c[0]].position, vs[c[1]].position, vs[c[2]].position, vs[d[2]].position);
  }

  /** The vertices the first loop appends, in order: `Vertex(newPosition)` with its index set to
      its place in the list, which is the old vertex count plus the number made before it. */
  function NewVertices(a: seq<HalfEdge>, vs: seq<Vertex>, made: seq<int>): (r: seq<Vertex>)
    requires PositionsAre3(vs) && MadeReady(a, vs, made)
    ensures |r| == |made|
  {
    seq(|made|, i requires 0 <= i < |made| => NewVertex(EdgeVertex(a, vs, made[i])).(index := |vs| + i))
  }

  /** Appending a vertex for one more half-edge appends one record to the new vertices. */
  lemma NewVerticesSnoc(a: seq<HalfEdge>, vs: seq<Vertex>, made: seq<int>, h: int)
    requires PositionsAre3(vs) && MadeReady(a, vs, made) && EdgeReady(a, vs, h)
    ensures MadeReady(a, vs, made + [h])
    ensures NewVertices(a, vs, made + [h])
            == NewVertices(a, vs, made) + [NewVertex(EdgeVertex(a, vs, h)).(index := |vs| + |made|)]
  {
    assert forall i | 0 <= i < |made| :: (made + [h])[i] == made[i];
    assert (made + [h])[|made|] == h;
  }

  // ---------------------------------------------------------------------
  // The smoothing of the original vertices

  /** The walk around vertex v closes and every neighbour it finds is a vertex with a 3-vector
      position. */
  ghost predicate FanReady(a: seq<HalfEdge>, vs: seq<Vertex>, v: int)
    requires 0 <= v < |vs|
  {
    ClosedFan(a, vs[v].halfEdge) && NeighboursIn(vs, FanVertices(a, vs[v].halfEdge, FanSize(a, vs[v].halfEdge)))
  }

  /** `getVertexVertices(vertices[v])` on the structure before subdivision. */
  ghost function Neighbours(a: seq<HalfEdge>, vs: seq<Vertex>, v: int): (ns: seq<int>)
    requires 0 <= v < |vs| && FanReady(a, vs, v)
    ensures 0 < |ns| && NeighboursIn(vs, ns)
  {
    FanVertices(a, vs[v].halfEdge, FanSize(a, vs[v].halfEdge))
  }

  /** Everything `subdivision` needs of the mesh it is called on. */
  ghost predicate SubdivisionReady(s: Links) {
    SplitReady(s) && forall v | 0 <= v < |s.vertices| :: FanReady(s.arena, s.vertices, v)
  }

  // ---------------------------------------------------------------------
  // The whole operation

  /** The first loop over all faces. */
  function Marked(s: Links): (st: Split)
    requires SplitReady(s)
  {
    SplitFaces(s, |s.faces|)
  }

  /** `vertices` after `subdivision`: each original vertex moved to its smoothed position, then
      the new vertices. */
  ghost function SubdividedVertices(s: Links): (r: seq<Vertex>)
    requires SubdivisionReady(s)
  {
    SplitFacesDone(s, |s.faces|);
    var vs := s.vertices;
    seq(|vs|, v requires 0 <= v < |vs| => vs[v].(position := Smoothed(vs, v, Neighbours(s.arena, vs, v))))
    + NewVertices(s.arena, vs, Marked(s).made)
  }

  /** `faceIndices` after `subdivision`. */
  function SubdividedFaces(s: Links): (r: seq<Triple>)
    requires SplitReady(s)
  {
    Marked(s).triples
  }

  /** After subdivision there are four triples per old face, one vertex per old vertex plus one
      per edge made, every triple names a vertex of the new list, and every vertex's index is its
      place in the list. */
  lemma SubdividedShape(s: Links)
    requires SubdivisionReady(s)
    ensures var vs', fs' := SubdividedVertices(s), SubdividedFaces(s);
            && |fs'| == 4 * |s.faces| && |vs'| == |s.vertices| + |Marked(s).made|
            && TriplesIn(fs', |vs'|)
            && forall v | 0 <= v < |vs'| :: vs'[v].index == v
  {
    SplitFacesDone(s, |s.faces|);
  }

  /** The four triples of face j: the three corner faces and the middle face, named by the new
      vertices of the face's half-edges. */
  lemma SubdividedFace(s: Links, j: nat, i: nat)
    requires SplitReady(s) && j < |s.faces| && i < 4
    ensures forall k | 0 <= k < 3 :: Around(s.arena, FaceEdge(s, j), k) in Marked(s).marks
    ensures |SubdividedFaces(s)| == 4 * |s.faces|
    ensures SubdividedFaces(s)[4 * j + i] == ChildTriple(s.arena, Marked(s).marks, FaceEdge(s, j), i)
  {
    SplitFacesDone(s, |s.faces|);
    assert FaceEmitted(s.arena, Marked(s).marks, Marked(s).triples, 4 * j, FaceEdge(s, j));
  }

  /** Every half-edge of every face gets a new vertex, shared with its twin, appended after the old
      vertices, at the edge point of that edge. */
  lemma SubdividedEdge(s: Links, j: nat, i: nat)
    requires SubdivisionReady(s) && j < |s.faces| && i < 3
    requires TwinReversed(s.arena, Around(s.arena, FaceEdge(s, j), i))
    ensures var g, m, vs' := Around(s.arena, FaceEdge(s, j), i), Marked(s).marks, SubdividedVertices(s);
            && g in m && s.arena[g].opposite in m && m[s.arena[g].opposite] == m[g]
            && |s.vertices| <= m[g] < |vs'|
            && vs'[m[g]].position == EdgeVertex(s.arena, s.vertices, g)
  {
    var a, vs, st := s.arena, s.vertices, Marked(s);
    SplitFacesDone(s, |s.faces|);
    var g := Around(a, FaceEdge(s, j), i);
    assert MarkedPair(a, |vs|, st, g);
    var n := st.marks[g];
    var maker := st.made[n - |vs|];
    assert EdgeReady(a, vs, maker);
    var vs' := SubdividedVertices(s);
    assert vs'[n] == NewVertices(a, vs, st.made)[n - |vs|];
    if maker != g {
      EdgeVertexShared(a, vs, maker);
    }
  }

  /** Coordinate c of the smoothed position is Loop's vertex mask over the neighbours, with
      beta = `Beta(n)` for n neighbours. */
  lemma SmoothedComponents(vs: seq<Vertex>, v: int, ns: seq<int>, beta: real, c: nat)
    requires 0 <= v < |vs| && NeighboursIn(vs, ns) && 0 < |ns| && beta == Beta(|ns|) && c < 3
    ensures Smoothed(vs, v, ns).data[c]
            == (1.0 - |ns| as real * beta) * vs[v].position.data[c] + beta * NeighbourTotal(vs, ns, c, |ns|)
  {
    SmoothSumComponent(vs, v, ns, beta, |ns|, c);
  }

  /** Subdivision moves an original vertex and changes nothing else about it: its new position is
      the smoothed point of its neighbours on the structure before subdivision, from the old
      positions. */
  lemma SubdividedOriginal(s: Links, v: int)
    requires SubdivisionReady(s) && 0 <= v < |s.vertices|
    ensures var old_v, new_v := s.vertices[v], SubdividedVertices(s)[v];
            && new_v.halfEdge == old_v.halfEdge && new_v.index == old_v.index && new_v.normal == old_v.normal
            && new_v.position == Smoothed(s.vertices, v, Neighbours(s.arena, s.vertices, v))
  {
  }
}
