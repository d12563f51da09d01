/** What `initializeHalfEdgeMesh` builds (TriMesh.cpp:51-79), as functions on
    the pointer structure: one step per statement group of its loops, folded
    over the face list. The class `TriMeshes.TriMesh` runs the same steps in
    place and is proved to end in `Built`. The lemmas say what the result is:
    in general one face per triple and a map holding the last half-edge made
    for each directed edge; when no directed edge repeats, closed forms for
    every record. */
module MeshBuild {
  import opened Matrices
  import opened MeshTypes

  // ---------------------------------------------------------------------
  // The steps

  /** `faces.push_back(std::make_shared<Face>())`. */
  function AddFace(s: Links): (r: Links)
    ensures r.vertices == s.vertices && r.arena == s.arena && r.halfEdges == s.halfEdges
    ensures r.faceArena == s.faceArena + [BlankFace] && r.faces == s.faces + [|s.faceArena|]
  {
    s.(faceArena := s.faceArena + [BlankFace], faces := s.faces + [|s.faceArena|])
  }

  /** `halfEdges[e] = std::make_shared<HalfEdge>()`: a blank record, and the map entry for e now
      points at it, replacing any earlier one. */
  function CreateEdge(s: Links, e: Edge): (r: Links)
    ensures r.vertices == s.vertices && r.faceArena == s.faceArena && r.faces == s.faces
    ensures r.arena == s.arena + [BlankHalfEdge]
    ensures r.halfEdges == s.halfEdges[e := |s.arena|]
    ensures MapInArena(s) ==> MapInArena(r)
  {
    s.(arena := s.arena + [BlankHalfEdge], halfEdges := s.halfEdges[e := |s.arena|])
  }

  /** The first inner loop, after i of its iterations. */
  function CreateEdges(s: Links, f: Triple, i: nat): (r: Links)
    requires i <= 3
    ensures r.vertices == s.vertices && r.faceArena == s.faceArena && r.faces == s.faces
    ensures |r.arena| == |s.arena| + i
    ensures MapInArena(s) ==> MapInArena(r)
    ensures forall e | e in s.halfEdges :: e in r.halfEdges
    ensures forall j | 0 <= j < i :: EdgePair(f, j) in r.halfEdges
  {
    if i == 0 then s else CreateEdge(CreateEdges(s, f, i - 1), EdgePair(f, i - 1))
  }

  /** One iteration of the second inner loop: the half-edge of the i-th edge gets its face, its
      start vertex and its successor, the face and the start vertex point back at it, and if the
      reverse edge is in the map the two become each other's opposites. */
  function LinkEdge(s: Links, f: Triple, fid: int, i: nat): (r: Links)
    requires MapInArena(s) && TripleIn(f, |s.vertices|) && 0 <= fid < |s.faceArena|
    requires EdgePair(f, i) in s.halfEdges && EdgePair(f, i + 1) in s.halfEdges
    ensures r.halfEdges == s.halfEdges && r.faces == s.faces
    ensures |r.arena| == |s.arena| && |r.faceArena| == |s.faceArena| && |r.vertices| == |s.vertices|
  {
    var e := EdgePair(f, i);
    var h := s.halfEdges[e];
    var linked := s.arena[h := s.arena[h].(face := fid, startVertex := e.0,
                                            next := s.halfEdges[EdgePair(f, i + 1)])];
    var oe := OppositeEdgePair(e);
    var paired :=
      if oe in s.halfEdges then
        var o := s.halfEdges[oe];
        var one := linked[h := linked[h].(opposite := o)];
        one[o := one[o].(opposite := h)]
      else linked;
    s.(arena := paired,
       faceArena := s.faceArena[fid := s.faceArena[fid].(halfEdge := h)],
       vertices := s.vertices[e.0 := s.vertices[e.0].(halfEdge := h)])
  }

  /** The second inner loop, after i of its iterations. */
  function LinkEdges(s: Links, f: Triple, fid: int, i: nat): (r: Links)
    requires i <= 3
    requires MapInArena(s) && TripleIn(f, |s.vertices|) && 0 <= fid < |s.faceArena|
    requires forall j | 0 <= j < 3 :: EdgePair(f, j) in s.halfEdges
    ensures r.halfEdges == s.halfEdges && r.faces == s.faces && MapInArena(r)
    ensures |r.arena| == |s.arena| && |r.faceArena| == |s.faceArena| && |r.vertices| == |s.vertices|
  {
    if i == 0 then s
    else
      var p := LinkEdges(s, f, fid, i - 1);
      EdgePairsChain(f, i - 1);
      assert EdgePair(f, i) == EdgePair(f, i % 3);
      LinkEdge(p, f, fid, i - 1)
  }

  /** One iteration of the outer loop: a new face, its three half-edges, then their links. */
  function BuildFace(s: Links, f: Triple): (r: Links)
    requires MapInArena(s) && TripleIn(f, |s.vertices|)
    ensures MapInArena(r) && |r.vertices| == |s.vertices|
    ensures |r.arena| == |s.arena| + 3 && |r.faceArena| == |s.faceArena| + 1
    ensures |r.faces| == |s.faces| + 1
  {
    var added := AddFace(s);
    var created := CreateEdges(added, f, 3);
    LinkEdges(created, f, |s.faceArena|, 3)
  }

  /** The outer loop after t faces. */
  function BuildFaces(s: Links, fi: seq<Triple>, t: nat): (r: Links)
    requires t <= |fi| && MapInArena(s) && TriplesIn(fi, |s.vertices|)
    ensures MapInArena(r) && |r.vertices| == |s.vertices|
    ensures |r.arena| == |s.arena| + 3 * t && |r.faceArena| == |s.faceArena| + t
    ensures |r.faces| == |s.faces| + t
  {
    if t == 0 then s else BuildFace(BuildFaces(s, fi, t - 1), fi[t - 1])
  }

  /** `halfEdges.clear(); faces.clear();`: the arenas keep their records. */
  function Cleared(s: Links): (r: Links)
    ensures MapInArena(r) && r.faces == [] && r.halfEdges == map[]
  {
    s.(faces := [], halfEdges := map[])
  }

  /** The structure `initializeHalfEdgeMesh` leaves behind. */
  function Built(s: Links, fi: seq<Triple>): (r: Links)
    requires TriplesIn(fi, |s.vertices|)
  {
    BuildFaces(Cleared(s), fi, |fi|)
  }
}
