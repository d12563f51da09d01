/** The walks TriMesh.cpp makes over the pointer structure: the three corners of a face
    (`getFaceVertices`) and the fan of half-edges around a vertex (`getVertexVertices`,
    `getVertexFaces`), which turns from a half-edge to `next->next->opposite` until it is back
    where it started. The walks are stated on any `Links`; the lemmas at the end say what they
    visit in a mesh that `initializeHalfEdgeMesh` built from faces without repeated directed
    edges. */
module MeshWalks {
  import opened MeshTypes
  import opened MeshBuild
  import opened MeshShape

  /** The records a turn dereferences: the half-edge, its next and the next after that. The walks
      read the half-edge arena only. */
  predicate Walkable(a: seq<HalfEdge>, h: int) {
    0 <= h < |a| && 0 <= a[h].next < |a| && 0 <= a[a[h].next].next < |a|
  }

  /** One turn around the start vertex: `he->nextHalfEdge->nextHalfEdge->oppositeHalfEdge`. */
  function Turn(a: seq<HalfEdge>, h: int): int
    requires Walkable(a, h)
  {
    a[a[a[h].next].next].opposite
  }

  /** The half-edge reached after i turns from h0 (NULL once a turn cannot be made). */
  function Orbit(a: seq<HalfEdge>, h0: int, i: nat): int {
    if i == 0 then h0
    else
      var p := Orbit(a, h0, i - 1);
      if Walkable(a, p) then Turn(a, p) else NULL
  }

  /** The first n half-edges of the orbit can all be turned. */
  predicate WalkableFor(a: seq<HalfEdge>, h0: int, n: nat) {
    forall i | 0 <= i < n :: Walkable(a, Orbit(a, h0, i))
  }

  /** The do-while loop around a vertex stops after exactly n turns: every half-edge on the way
      can be turned, and the n-th turn is the first to come back to h0. */
  predicate FanCloses(a: seq<HalfEdge>, h0: int, n: nat) {
    n > 0 && WalkableFor(a, h0, n) && Orbit(a, h0, n) == h0
    && forall i | 0 < i < n :: Orbit(a, h0, i) != h0
  }

  /** The walk from h0 ends. */
  ghost predicate ClosedFan(a: seq<HalfEdge>, h0: int) {
    exists n :: FanCloses(a, h0, n)
  }

  /** A fan closes after one number of turns only. */
  lemma FanSizeUnique(a: seq<HalfEdge>, h0: int, n: nat, n': nat)
    requires FanCloses(a, h0, n) && FanCloses(a, h0, n')
    ensures n == n'
  {
  }

  /** The number of turns of a closed fan. */
  ghost function FanSize(a: seq<HalfEdge>, h0: int): (n: nat)
    requires ClosedFan(a, h0)
    ensures FanCloses(a, h0, n)
  {
    var n :| FanCloses(a, h0, n); n
  }

  /** `getVertexFaces`: the face of each of the first n half-edges of the orbit. */
  function FanFaces(a: seq<HalfEdge>, h0: int, n: nat): (r: seq<int>)
    requires WalkableFor(a, h0, n)
    ensures |r| == n
    ensures forall i | 0 <= i < n :: r[i] == a[Orbit(a, h0, i)].face
  {
    if n == 0 then [] else FanFaces(a, h0, n - 1) + [a[Orbit(a, h0, n - 1)].face]
  }

  /** `getVertexVertices`: the vertex at the far end of each of the first n half-edges. */
  function FanVertices(a: seq<HalfEdge>, h0: int, n: nat): (r: seq<int>)
    requires WalkableFor(a, h0, n)
    ensures |r| == n
    ensures forall i | 0 <= i < n :: r[i] == a[a[Orbit(a, h0, i)].next].startVertex
  {
    if n == 0 then [] else FanVertices(a, h0, n - 1) + [a[a[Orbit(a, h0, n - 1)].next].startVertex]
  }

  /** `getFaceVertices` for a face whose half-edge is h: the start vertices of h and of the two
      half-edges after it. */
  function FaceCorners(a: seq<HalfEdge>, h: int): (r: seq<int>)
    requires Walkable(a, h)
    ensures |r| == 3 && r[0] == a[h].startVertex && r[1] == a[a[h].next].startVertex
            && r[2] == a[a[a[h].next].next].startVertex
  {
    [a[h].startVertex, a[a[h].next].startVertex, a[a[a[h].next].next].startVertex]
  }

  // ---------------------------------------------------------------------
  // The walks over a built mesh

  /** The last half-edge leaving v among the first m is one that leaves v; when there is none the
      vertex keeps what it had. */
  lemma {:induction false} LastOutLeaves(fi: seq<Triple>, v: int, m: nat, base: int, prior: int)
    requires m <= 3 * |fi|
    ensures var o := LastOut(fi, v, m, base, prior);
            || (base <= o < base + m && EdgeOf(fi, o - base).0 == v)
            || (o == prior && forall k | 0 <= k < m :: EdgeOf(fi, k).0 != v)
  {
    if m > 0 && EdgeOf(fi, m - 1).0 != v {
      LastOutLeaves(fi, v, m - 1, base, prior);
    }
  }

  /** Record base + k of a built mesh in terms of edge k. */
  lemma BuiltRecord(s0: Links, fi: seq<Triple>, k: nat)
    requires DistinctEdges(fi) && TriplesIn(fi, |s0.vertices|) && k < 3 * |fi|
    ensures var r, base := Built(s0, fi), |s0.arena|;
            && |r.faces| == |fi| && 0 <= base + k < |r.arena|
            && r.arena[base + k].startVertex == EdgeOf(fi, k).0
            && r.arena[base + k].next == base + NextInFace(k)
            && r.arena[base + k].face == r.faces[k / 3]
  {
    BuiltFace(s0, fi, k / 3, k % 3);
    EdgeOfFace(fi, k / 3, k % 3);
  }

  /** The half-edge two steps after k in its face is the one that ends where k starts. */
  lemma EdgeBefore(fi: seq<Triple>, k: nat)
    requires k < 3 * |fi|
    ensures var k2 := NextInFace(NextInFace(k));
            NextInFace(k) < 3 * |fi| && k2 < 3 * |fi| && EdgeOf(fi, k2).1 == EdgeOf(fi, k).0
  {
    var t, i := k / 3, k % 3;
    EdgeOfFace(fi, t, i);
    EdgeOfFace(fi, t, (i + 1) % 3);
    EdgeOfFace(fi, t, (i + 2) % 3);
    EdgePairsChain(fi[t], i + 2);
    assert EdgePair(fi[t], (i + 2) % 3) == EdgePair(fi[t], i + 2);
  }

  /** From a new half-edge of a built mesh, two steps along the face reach the half-edge of the
      face's edge that ends where it starts. */
  lemma BuiltTwoAhead(s0: Links, fi: seq<Triple>, k: nat)
    requires DistinctEdges(fi) && TriplesIn(fi, |s0.vertices|) && k < 3 * |fi|
    ensures var r, base, k2 := Built(s0, fi), |s0.arena|, NextInFace(NextInFace(k));
            && k2 < 3 * |fi| && EdgeOf(fi, k2).1 == EdgeOf(fi, k).0
            && Walkable(r.arena, base + k) && r.arena[r.arena[base + k].next].next == base + k2
  {
    var r, base := Built(s0, fi), |s0.arena|;
    var k1 := NextInFace(k);
    EdgeBefore(fi, k);
    BuiltRecord(s0, fi, k);
    BuiltRecord(s0, fi, k1);
    BuiltRecord(s0, fi, NextInFace(k1));
    assert r.arena[base + k].next == base + k1;
  }

  /** In a built mesh a turn from a new half-edge can always be made, and it leads to NULL (a
      boundary) or to another new half-edge leaving the same vertex. */
  lemma BuiltTurn(s0: Links, fi: seq<Triple>, k: nat)
    requires DistinctEdges(fi) && TriplesIn(fi, |s0.vertices|) && k < 3 * |fi|
    ensures var r, base := Built(s0, fi), |s0.arena|;
            && Walkable(r.arena, base + k)
            && var o := Turn(r.arena, base + k);
               o == NULL || (base <= o < base + 3 * |fi| && EdgeOf(fi, o - base).0 == EdgeOf(fi, k).0)
  {
    var r, base := Built(s0, fi), |s0.arena|;
    var k2 := NextInFace(NextInFace(k));
    BuiltTwoAhead(s0, fi, k);
    BuiltOpposite(s0, fi, k2);
    var o := Turn(r.arena, base + k);
    assert o == r.arena[base + k2].opposite;
    if o != NULL {
      BuiltRecord(s0, fi, o - base);
    }
  }

  /** Turning from a new half-edge of a built mesh only ever reaches new half-edges leaving the
      same vertex, until the walk falls off a boundary (NULL). */
  lemma {:induction false} BuiltOrbit(s0: Links, fi: seq<Triple>, k0: nat, i: nat)
    requires DistinctEdges(fi) && TriplesIn(fi, |s0.vertices|) && k0 < 3 * |fi|
    ensures var base := |s0.arena|;
            var o := Orbit(Built(s0, fi).arena, base + k0, i);
            o == NULL || (base <= o < base + 3 * |fi| && EdgeOf(fi, o - base).0 == EdgeOf(fi, k0).0)
  {
    var r, base := Built(s0, fi), |s0.arena|;
    if i > 0 {
      BuiltOrbit(s0, fi, k0, i - 1);
      var p := Orbit(r.arena, base + k0, i - 1);
      if p != NULL {
        BuiltTurn(s0, fi, p - base);
      }
    }
  }

  /** Around a vertex v that starts some edge of the face list, every half-edge of a closed fan is
      a new half-edge leaving v. */
  lemma BuiltFanOrbit(s0: Links, fi: seq<Triple>, k0: nat, n: nat, i: nat)
    requires DistinctEdges(fi) && TriplesIn(fi, |s0.vertices|) && k0 < 3 * |fi|
    requires FanCloses(Built(s0, fi).arena, |s0.arena| + k0, n) && i < n
    ensures var r, base := Built(s0, fi), |s0.arena|;
            var o := Orbit(r.arena, base + k0, i);
            base <= o < base + 3 * |fi| && EdgeOf(fi, o - base).0 == EdgeOf(fi, k0).0
  {
    BuiltOrbit(s0, fi, k0, i);
    assert Walkable(Built(s0, fi).arena, Orbit(Built(s0, fi).arena, |s0.arena| + k0, i));
  }

  /** The i-th half-edge of such a fan lies in face t, which has the fan's vertex as a corner,
      and its edge runs from that vertex to the start of the next half-edge. */
  lemma BuiltFanAt(s0: Links, fi: seq<Triple>, k0: nat, n: nat, i: nat) returns (t: nat)
    requires DistinctEdges(fi) && TriplesIn(fi, |s0.vertices|) && k0 < 3 * |fi|
    requires FanCloses(Built(s0, fi).arena, |s0.arena| + k0, n) && i < n
    ensures var r, v := Built(s0, fi), EdgeOf(fi, k0).0;
            var o := Orbit(r.arena, |s0.arena| + k0, i);
            && t < |fi| == |r.faces| && 0 <= o < |r.arena| && r.arena[o].face == r.faces[t]
            && (fi[t].a == v || fi[t].b == v || fi[t].c == v)
            && 0 <= r.arena[o].next < |r.arena| && (v, r.arena[r.arena[o].next].startVertex) in EdgeSet(fi, 3 * |fi|)
  {
    var r, base := Built(s0, fi), |s0.arena|;
    BuiltFanOrbit(s0, fi, k0, n, i);
    var o := Orbit(r.arena, base + k0, i);
    var k := o - base;
    t := k / 3;
    BuiltRecord(s0, fi, k);
    assert r.arena[o].face == r.faces[t];
    BuiltRecord(s0, fi, NextInFace(k));
    EdgeOfFace(fi, t, k % 3);
    EdgePairsChain(fi[t], k % 3);
    assert EdgeOf(fi, k) == (EdgeOf(fi, k0).0, r.arena[r.arena[o].next].startVertex);
    assert EdgeOf(fi, k) in EdgeSet(fi, 3 * |fi|);
  }

  /** The fan of a built mesh around a vertex with an outgoing edge: each listed face is a mesh face
      with the vertex as a corner, and each listed vertex ends an edge that leaves it. */
  lemma BuiltFan(s0: Links, fi: seq<Triple>, v: nat, n: nat)
    requires DistinctEdges(fi) && TriplesIn(fi, |s0.vertices|) && v < |s0.vertices|
    requires exists k :: 0 <= k < 3 * |fi| && EdgeOf(fi, k).0 == v
    requires FanCloses(Built(s0, fi).arena, Built(s0, fi).vertices[v].halfEdge, n)
    ensures var r := Built(s0, fi);
            forall i | 0 <= i < n ::
              && (exists t :: 0 <= t < |fi| && FanFaces(r.arena, r.vertices[v].halfEdge, n)[i] == r.faces[t]
                                             && (fi[t].a == v || fi[t].b == v || fi[t].c == v))
              && (v, FanVertices(r.arena, r.vertices[v].halfEdge, n)[i]) in EdgeSet(fi, 3 * |fi|)
  {
    var r, base := Built(s0, fi), |s0.arena|;
    BuiltVertex(s0, fi, v);
    LastOutLeaves(fi, v, 3 * |fi|, base, s0.vertices[v].halfEdge);
    var h0 := r.vertices[v].halfEdge;
    var k0 := h0 - base;
    var faces, ends := FanFaces(r.arena, h0, n), FanVertices(r.arena, h0, n);
    forall i | 0 <= i < n
      ensures exists t :: 0 <= t < |fi| && faces[i] == r.faces[t] && (fi[t].a == v || fi[t].b == v || fi[t].c == v)
      ensures (v, ends[i]) in EdgeSet(fi, 3 * |fi|)
    {
      var t := BuiltFanAt(s0, fi, k0, n, i);
    }
  }

  /** `getFaceVertices` on face t of a built mesh gives its corners rotated: (c, a, b), because the
      face points at the half-edge of its last edge. */
  lemma BuiltFaceCorners(s0: Links, fi: seq<Triple>, t: nat)
    requires DistinctEdges(fi) && TriplesIn(fi, |s0.vertices|) && t < |fi|
    ensures var r := Built(s0, fi);
            |r.faces| == |fi| && 0 <= r.faces[t] < |r.faceArena| && Walkable(r.arena, r.faceArena[r.faces[t]].halfEdge)
            && FaceCorners(r.arena, r.faceArena[r.faces[t]].halfEdge) == [fi[t].c, fi[t].a, fi[t].b]
  {
    BuiltFace(s0, fi, t, 2);
    BuiltFace(s0, fi, t, 0);
    BuiltFace(s0, fi, t, 1);
  }
}
