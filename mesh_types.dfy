/** The records of the half-edge mesh (TriMesh.h) and the pure index helpers
    of TriMesh.cpp. Shared pointers between vertices, faces and half-edges
    become integer indices into arenas: `vertices` is the vertex arena, faces
    and half-edges live in arenas that are only ever appended to (a record
    that the mesh's containers drop stays reachable from the records that
    still point at it, exactly as a shared pointer keeps it alive), and
    `NULL` stands for an empty pointer. */
module MeshTypes {
  import opened Matrices

  datatype Option<T> = None | Some(value: T)

  /** The empty `shared_ptr`. */
  const NULL: int := -1

  /** `Vector3i`: the three vertex indices of a face. */
  datatype Triple = Triple(a: int, b: int, c: int)
  {
    /** `face(i)` for the three valid indices. */
    function At(i: nat): int
      requires i < 3
    {
      if i == 0 then a else if i == 1 then b else c
    }
  }

  /** A directed edge `(start, end)`, the key of the half-edge map. */
  type Edge = (int, int)

  /** `getEdgePair`: the i-th directed edge of a face, indices taken modulo 3. */
  function EdgePair(f: Triple, i: nat): Edge {
    (f.At(i % 3), f.At((i + 1) % 3))
  }

  /** `getOppositeEdgePair`: the same edge walked the other way. */
  function OppositeEdgePair(e: Edge): Edge {
    (e.1, e.0)
  }

  /** Swapping twice gives the edge back, and an edge is its own opposite only when it is a loop. */
  lemma OppositeInvolution(e: Edge)
    ensures OppositeEdgePair(OppositeEdgePair(e)) == e
    ensures OppositeEdgePair(e) == e <==> e.0 == e.1
  {
  }

  /** Each edge of a face ends where the next one starts, and after three edges the face closes. */
  lemma EdgePairsChain(f: Triple, i: nat)
    ensures EdgePair(f, i).1 == EdgePair(f, i + 1).0
    ensures EdgePair(f, i + 3) == EdgePair(f, i)
  {
    assert (i + 3) % 3 == i % 3 && (i + 4) % 3 == (i + 1) % 3;
  }

  /** The three edges of a face are (a, b), (b, c) and (c, a). */
  lemma EdgePairsOfFace(f: Triple)
    ensures EdgePair(f, 0) == (f.a, f.b) && EdgePair(f, 1) == (f.b, f.c) && EdgePair(f, 2) == (f.c, f.a)
  {
  }

  /** `Vertex`: a position, one outgoing half-edge, its index in the vertex list, and a normal that
      stays empty until normals are computed. */
  datatype Vertex = Vertex(position: Mat<real>, halfEdge: int, index: int, normal: Option<Mat<real>>)

  /** `Face`: one of its half-edges, and a normal and centre that stay empty until computed. */
  datatype Face = Face(halfEdge: int, normal: Option<Mat<real>>, position: Option<Mat<real>>)

  /** `HalfEdge`: its face, the vertex it leaves, its twin (NULL on a boundary) and the next
      half-edge around the face. */
  datatype HalfEdge = HalfEdge(face: int, startVertex: int, opposite: int, next: int)

  /** `Vertex(position)`: no half-edge, index -1, no normal. */
  function NewVertex(position: Mat<real>): (v: Vertex)
    ensures v.index == -1 && v.halfEdge == NULL && v.normal.None?
  {
    Vertex(position, NULL, -1, None)
  }

  /** `std::make_shared<Face>()`: every pointer empty. */
  const BlankFace: Face := Face(NULL, None, None)

  /** `std::make_shared<HalfEdge>()`: every pointer empty. */
  const BlankHalfEdge: HalfEdge := HalfEdge(NULL, NULL, NULL, NULL)

  /** The pointer structure of a mesh: the vertex list, the face arena and the face list (indices
      into it), the half-edge arena, and the map from directed edges to half-edges. */
  datatype Links = Links(vertices: seq<Vertex>, faceArena: seq<Face>, faces: seq<int>,
                         arena: seq<HalfEdge>, halfEdges: map<Edge, int>)

  /** Every half-edge the map holds is a record of the arena. */
  predicate MapInArena(s: Links) {
    forall e | e in s.halfEdges :: 0 <= s.halfEdges[e] < |s.arena|
  }

  /** A face's indices all name vertices of a list of n. */
  predicate TripleIn(f: Triple, n: nat) {
    0 <= f.a < n && 0 <= f.b < n && 0 <= f.c < n
  }

  predicate TriplesIn(fi: seq<Triple>, n: nat) {
    forall t | 0 <= t < |fi| :: TripleIn(fi[t], n)
  }

  /** A half-edge index that names an arena record. */
  predicate IsHalfEdge(s: Links, h: int) {
    0 <= h < |s.arena|
  }

  /** `h->nextHalfEdge`, dereferenced: the record exists and so does its successor. */
  predicate HasNext(s: Links, h: int) {
    IsHalfEdge(s, h) && IsHalfEdge(s, s.arena[h].next)
  }

  function Next(s: Links, h: int): int
    requires IsHalfEdge(s, h)
  {
    s.arena[h].next
  }

  function Start(s: Links, h: int): int
    requires IsHalfEdge(s, h)
  {
    s.arena[h].startVertex
  }
}
