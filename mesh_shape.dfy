/** The shape of the structure `initializeHalfEdgeMesh` builds. Half-edge k of
    the new ones (k counts 3 per face, in face order) is arena record base + k,
    where base is the arena's size before the build. In general the map holds,
    for every directed edge, the last half-edge created for it. When no
    directed edge repeats, every record has a closed form: the face's three
    half-edges start at its three vertices, follow one another in a 3-cycle,
    point at the face, and are paired with the half-edge of the reverse edge
    exactly when that edge exists. */
module MeshShape {
  import opened Matrices
  import opened MeshTypes
  import opened MeshBuild

  /** The k-th directed edge of a face list: edge k % 3 of face k / 3. */
  function EdgeOf(fi: seq<Triple>, k: nat): Edge
    requires k < 3 * |fi|
  {
    EdgePair(fi[k / 3], k % 3)
  }

  /** No directed edge occurs twice in the face list. */
  ghost predicate DistinctEdges(fi: seq<Triple>) {
    forall k, k' | 0 <= k < k' < 3 * |fi| :: EdgeOf(fi, k) != EdgeOf(fi, k')
  }

  function EdgeSet(fi: seq<Triple>, m: nat): set<Edge>
    requires m <= 3 * |fi|
  {
    set k | 0 <= k < m :: EdgeOf(fi, k)
  }

  /** The last of the first m edges equal to e, or NULL. */
  function LastIndex(fi: seq<Triple>, e: Edge, m: nat): (k: int)
    requires m <= 3 * |fi|
    ensures k == NULL || (0 <= k < m && EdgeOf(fi, k) == e)
  {
    if m == 0 then NULL else if EdgeOf(fi, m - 1) == e then m - 1 else LastIndex(fi, e, m - 1)
  }

  lemma LastOutStep(fi: seq<Triple>, v: int, m: nat, m': nat, base: int, prior: int)
    requires m < m' == m + 1 <= 3 * |fi|
    ensures LastOut(fi, v, m', base, prior)
            == if EdgeOf(fi, m).0 == v then base + m else LastOut(fi, v, m, base, prior)
  {
  }

  /** The successor of half-edge k within its face. */
  function NextInFace(k: nat): nat {
    if k % 3 == 2 then k - 2 else k + 1
  }

  /** The half-edge the reverse of e maps to, when it is below bound. */
  function PairedBelow(m: map<Edge, int>, e: Edge, bound: int): int {
    var oe := OppositeEdgePair(e);
    if oe in m && m[oe] < bound then m[oe] else NULL
  }

  /** The half-edge the reverse of e maps to, when it is in [lo, hi). */
  function PairedBetween(m: map<Edge, int>, e: Edge, lo: int, hi: int): int {
    var oe := OppositeEdgePair(e);
    if oe in m && lo <= m[oe] < hi then m[oe] else NULL
  }

  /** The half-edge a vertex points at after the first m half-edges were linked: the last one
      leaving it, else the one it had before. */
  function LastOut(fi: seq<Triple>, v: int, m: nat, base: int, prior: int): int
    requires m <= 3 * |fi|
  {
    if m == 0 then prior
    else if EdgeOf(fi, m - 1).0 == v then base + m - 1
    else LastOut(fi, v, m - 1, base, prior)
  }

  /** The finished record of half-edge k, paired with reverse edges below bound. */
  function Linked(fi: seq<Triple>, base: int, fbase: int, m: map<Edge, int>, k: nat, bound: int): HalfEdge
    requires k < 3 * |fi|
  {
    HalfEdge(fbase + k / 3, EdgeOf(fi, k).0, PairedBelow(m, EdgeOf(fi, k), bound), base + NextInFace(k))
  }

  // ---------------------------------------------------------------------
  // Index arithmetic

  lemma Split3(t: nat, i: nat)
    requires i < 3
    ensures (3 * t + i) / 3 == t && (3 * t + i) % 3 == i
  {
  }

  lemma EdgeOfFace(fi: seq<Triple>, t: nat, i: nat)
    requires t < |fi| && i < 3
    ensures EdgeOf(fi, 3 * t + i) == EdgePair(fi[t], i)
    ensures NextInFace(3 * t + i) == 3 * t + (i + 1) % 3
    ensures EdgeOf(fi, NextInFace(3 * t + i)) == EdgePair(fi[t], i + 1)
  {
    Split3(t, i);
    Split3(t, (i + 1) % 3);
    EdgePairsChain(fi[t], i);
    if i == 2 {
      assert EdgePair(fi[t], 3) == EdgePair(fi[t], 0) by { EdgePairsChain(fi[t], 0); }
    }
  }

  lemma EdgeSetGrows(fi: seq<Triple>, m: nat)
    requires m < 3 * |fi|
    ensures EdgeSet(fi, m + 1) == EdgeSet(fi, m) + {EdgeOf(fi, m)}
  {
  }

  // ---------------------------------------------------------------------
  // The map, whatever the faces

  /** The map after the first m creations: edge k mapped to record base + k, later entries
      replacing earlier ones. */
  function MapAt(fi: seq<Triple>, base: int, m: nat): map<Edge, int>
    requires m <= 3 * |fi|
  {
    if m == 0 then map[] else MapAt(fi, base, m - 1)[EdgeOf(fi, m - 1) := base + m - 1]
  }

  // The counters below are passed as separate parameters (m, m') tied by requires, so that the
  // terms at each call site are literally the ones the callee's contract mentions.

  lemma MapAtStep(fi: seq<Triple>, base: int, m: nat, m': nat)
    requires m < m' == m + 1 <= 3 * |fi|
    ensures MapAt(fi, base, m') == MapAt(fi, base, m)[EdgeOf(fi, m) := base + m]
  {
  }

  /** Keys are the directed edges seen so far; each maps to the last half-edge made for it. */
  ghost predicate MapIsLastMade(hm: map<Edge, int>, fi: seq<Triple>, base: int, m: nat)
    requires m <= 3 * |fi|
  {
    (forall k | 0 <= k < m :: EdgeOf(fi, k) in hm)
    && forall e | e in hm :: 0 <= LastIndex(fi, e, m) && hm[e] == base + LastIndex(fi, e, m)
  }

  lemma {:induction false} MapAtIsLastMade(fi: seq<Triple>, base: int, m: nat)
    requires m <= 3 * |fi|
    ensures MapIsLastMade(MapAt(fi, base, m), fi, base, m)
  {
    if m > 0 {
      MapAtIsLastMade(fi, base, m - 1);
    }
  }

  /** The first inner loop of face t, after i iterations. */
  lemma {:induction false} CreateEdgesMap(s: Links, fi: seq<Triple>, base: int, t: nat, i: nat, m0: nat, m: nat)
    requires t < |fi| && i <= 3 && m0 == 3 * t && m == m0 + i && |s.arena| == base + m0
    requires s.halfEdges == MapAt(fi, base, m0)
    ensures CreateEdges(s, fi[t], i).halfEdges == MapAt(fi, base, m)
  {
    if i > 0 {
      CreateEdgesMap(s, fi, base, t, i - 1, m0, m - 1);
      MapAtStep(fi, base, m - 1, m);
      EdgeOfFace(fi, t, i - 1);
    }
  }

  lemma {:induction false} BuildFacesMap(s: Links, fi: seq<Triple>, t: nat, m: nat)
    requires t <= |fi| && m == 3 * t && TriplesIn(fi, |s.vertices|)
    ensures BuildFaces(Cleared(s), fi, t).halfEdges == MapAt(fi, |s.arena|, m)
  {
    if t > 0 {
      var p := BuildFaces(Cleared(s), fi, t - 1);
      BuildFacesMap(s, fi, t - 1, m - 3);
      CreateEdgesMap(AddFace(p), fi, |s.arena|, t - 1, 3, m - 3, m);
    }
  }

  lemma KeysAreEdges(hm: map<Edge, int>, fi: seq<Triple>, base: int, m: nat)
    requires m <= 3 * |fi| && MapIsLastMade(hm, fi, base, m)
    ensures hm.Keys == EdgeSet(fi, m)
  {
    forall e | e in hm ensures e in EdgeSet(fi, m) {
      var k := LastIndex(fi, e, m);
      assert EdgeOf(fi, k) == e;
    }
  }

  /** Whatever the faces: one face per triple, and the map is keyed by the directed edges of the
      faces, each holding the half-edge created last for that edge (a later face reusing a
      directed edge replaces the earlier entry). */
  lemma BuiltMap(s: Links, fi: seq<Triple>)
    requires TriplesIn(fi, |s.vertices|)
    ensures |Built(s, fi).faces| == |fi|
    ensures Built(s, fi).halfEdges.Keys == EdgeSet(fi, 3 * |fi|)
    ensures forall e | e in Built(s, fi).halfEdges ::
              Built(s, fi).halfEdges[e] == |s.arena| + LastIndex(fi, e, 3 * |fi|)
  {
    BuildFacesMap(s, fi, |fi|, 3 * |fi|);
    MapAtIsLastMade(fi, |s.arena|, 3 * |fi|);
    KeysAreEdges(Built(s, fi).halfEdges, fi, |s.arena|, 3 * |fi|);
  }

  // ---------------------------------------------------------------------
  // Distinct directed edges: the map is a bijection onto the new records

  lemma {:induction false} LastIndexOfDistinct(fi: seq<Triple>, k: nat, m: nat)
    requires k < m <= 3 * |fi| && DistinctEdges(fi)
    ensures LastIndex(fi, EdgeOf(fi, k), m) == k
  {
    if k < m - 1 {
      assert EdgeOf(fi, k) != EdgeOf(fi, m - 1);
      LastIndexOfDistinct(fi, k, m - 1);
    }
  }

  /** With no repeated directed edge, edge k maps to record base + k, every value is one of those
      records, and no two keys share a record. */
  lemma MapAtDistinct(fi: seq<Triple>, base: int, m: nat)
    requires m <= 3 * |fi| && DistinctEdges(fi)
    ensures forall k | 0 <= k < m :: EdgeOf(fi, k) in MapAt(fi, base, m) && MapAt(fi, base, m)[EdgeOf(fi, k)] == base + k
    ensures forall e | e in MapAt(fi, base, m) :: base <= MapAt(fi, base, m)[e] < base + m
    ensures forall e, e' | e in MapAt(fi, base, m) && e' in MapAt(fi, base, m) ::
              MapAt(fi, base, m)[e] == MapAt(fi, base, m)[e'] ==> e == e'
  {
    MapAtIsLastMade(fi, base, m);
    forall k | 0 <= k < m ensures MapAt(fi, base, m)[EdgeOf(fi, k)] == base + k {
      LastIndexOfDistinct(fi, k, m);
    }
    forall e, e' | e in MapAt(fi, base, m) && e' in MapAt(fi, base, m) && MapAt(fi, base, m)[e] == MapAt(fi, base, m)[e']
      ensures e == e'
    {
      assert EdgeOf(fi, LastIndex(fi, e, m)) == e && EdgeOf(fi, LastIndex(fi, e', m)) == e';
    }
  }

  /** The edge a map value belongs to. */
  lemma MapAtValue(fi: seq<Triple>, base: int, m: nat, e: Edge)
    requires m <= 3 * |fi| && DistinctEdges(fi) && e in MapAt(fi, base, m)
    ensures base <= MapAt(fi, base, m)[e] < base + m && EdgeOf(fi, MapAt(fi, base, m)[e] - base) == e
  {
    MapAtDistinct(fi, base, m);
    var j := MapAt(fi, base, m)[e] - base;
    assert MapAt(fi, base, m)[EdgeOf(fi, j)] == base + j;
  }

  /** With no repeated directed edge, the next edge to be created is not yet a key. */
  lemma FreshEdge(fi: seq<Triple>, base: int, m: nat)
    requires m < 3 * |fi| && DistinctEdges(fi)
    ensures EdgeOf(fi, m) !in MapAt(fi, base, m)
  {
    MapAtIsLastMade(fi, base, m);
    forall e | e in MapAt(fi, base, m) ensures e != EdgeOf(fi, m) {
      assert EdgeOf(fi, LastIndex(fi, e, m)) == e;
    }
  }

  // ---------------------------------------------------------------------
  // The state of the build between statements

  /** Sizes, untouched prefixes of the arenas, and the face list. */
  ghost predicate Frame(s: Links, s0: Links, created: nat, nf: nat) {
    |s.vertices| == |s0.vertices|
    && |s.arena| == |s0.arena| + created && s.arena[..|s0.arena|] == s0.arena
    && |s.faceArena| == |s0.faceArena| + nf && s.faceArena[..|s0.faceArena|] == s0.faceArena
    && s.faces == seq(nf, j => |s0.faceArena| + j)
  }

  /** Record base + k is finished, paired with a reverse edge below bound. */
  ghost predicate LinkedAt(s: Links, fi: seq<Triple>, base: int, fbase: int, k: nat, bound: int)
    requires k < 3 * |fi|
  {
    0 <= base + k < |s.arena| && s.arena[base + k] == Linked(fi, base, fbase, s.halfEdges, k, bound)
  }

  ghost predicate LinkedRange(s: Links, fi: seq<Triple>, base: int, fbase: int, from: nat, to: nat, bound: int)
    requires to <= 3 * |fi|
  {
    forall k | from <= k < to :: LinkedAt(s, fi, base, fbase, k, bound)
  }

  /** Record base + k is created but not linked: blank except for a twin set by a sibling linked
      earlier, whose record is in [lo, hi). */
  ghost predicate UnlinkedAt(s: Links, fi: seq<Triple>, base: int, k: nat, lo: int, hi: int)
    requires k < 3 * |fi|
  {
    0 <= base + k < |s.arena|
    && s.arena[base + k] == HalfEdge(NULL, NULL, PairedBetween(s.halfEdges, EdgeOf(fi, k), lo, hi), NULL)
  }

  ghost predicate UnlinkedRange(s: Links, fi: seq<Triple>, base: int, from: nat, to: nat, lo: int, hi: int)
    requires to <= 3 * |fi|
  {
    forall k | from <= k < to :: UnlinkedAt(s, fi, base, k, lo, hi)
  }

  /** Faces fbase .. fbase + t - 1 point at the last half-edge of their triple. */
  ghost predicate FacesDone(s: Links, base: int, fbase: int, t: nat) {
    forall j | 0 <= j < t ::
      0 <= fbase + j < |s.faceArena| && s.faceArena[fbase + j] == Face(base + 3 * j + 2, None, None)
  }

  /** Every vertex points at the last linked half-edge leaving it, or at what it had before. */
  ghost predicate VerticesAfter(s: Links, s0: Links, fi: seq<Triple>, base: int, m: nat)
    requires m <= 3 * |fi| && |s.vertices| == |s0.vertices|
  {
    forall v | 0 <= v < |s.vertices| ::
      s.vertices[v] == s0.vertices[v].(halfEdge := LastOut(fi, v, m, base, s0.vertices[v].halfEdge))
  }

  /** After t whole faces. */
  ghost predicate AfterFaces(s: Links, s0: Links, fi: seq<Triple>, t: nat) {
    t <= |fi| && Frame(s, s0, 3 * t, t)
    && s.halfEdges == MapAt(fi, |s0.arena|, 3 * t)
    && LinkedRange(s, fi, |s0.arena|, |s0.faceArena|, 0, 3 * t, |s0.arena| + 3 * t)
    && FacesDone(s, |s0.arena|, |s0.faceArena|, t)
    && VerticesAfter(s, s0, fi, |s0.arena|, 3 * t)
  }

  /** Inside face t, after c creations and l links. */
  ghost predicate InFace(s: Links, s0: Links, fi: seq<Triple>, t: nat, c: nat, l: nat) {
    t < |fi| && l <= c <= 3 && (l > 0 ==> c == 3)
    && Frame(s, s0, 3 * t + c, t + 1)
    && s.halfEdges == MapAt(fi, |s0.arena|, 3 * t + c)
    && LinkedRange(s, fi, |s0.arena|, |s0.faceArena|, 0, 3 * t, |s0.arena| + 3 * t + l)
    && LinkedRange(s, fi, |s0.arena|, |s0.faceArena|, 3 * t, 3 * t + l, |s0.arena| + 3 * t + 3)
    && UnlinkedRange(s, fi, |s0.arena|, 3 * t + l, 3 * t + c, |s0.arena| + 3 * t, |s0.arena| + 3 * t + l)
    && FacesDone(s, |s0.arena|, |s0.faceArena|, t)
    && s.faceArena[|s0.faceArena| + t] == Face(if l == 0 then NULL else |s0.arena| + 3 * t + l - 1, None, None)
    && VerticesAfter(s, s0, fi, |s0.arena|, 3 * t + l)
  }

  // ---------------------------------------------------------------------
  // The steps, one at a time

  lemma StartClear(s0: Links, fi: seq<Triple>)
    ensures AfterFaces(Cleared(s0), s0, fi, 0)
  {
    assert Cleared(s0).arena[..|s0.arena|] == s0.arena;
    assert Cleared(s0).faceArena[..|s0.faceArena|] == s0.faceArena;
  }

  /** Steps that leave the half-edge arena and the map alone keep every finished record. */
  lemma SameArenaKeepsLinked(s: Links, r: Links, fi: seq<Triple>, base: int, fbase: int, from: nat, to: nat,
                             bound: int)
    requires to <= 3 * |fi| && LinkedRange(s, fi, base, fbase, from, to, bound)
    requires r.arena == s.arena && r.halfEdges == s.halfEdges
    ensures LinkedRange(r, fi, base, fbase, from, to, bound)
  {
    forall k | from <= k < to ensures LinkedAt(r, fi, base, fbase, k, bound) {
      assert LinkedAt(s, fi, base, fbase, k, bound);
    }
  }

  lemma StartFace(s: Links, s0: Links, fi: seq<Triple>, t: nat)
    requires t < |fi| && AfterFaces(s, s0, fi, t)
    ensures InFace(AddFace(s), s0, fi, t, 0, 0)
  {
    var r := AddFace(s);
    assert r.faceArena[..|s0.faceArena|] == s0.faceArena by {
      assert r.faceArena[..|s0.faceArena|] == s.faceArena[..|s0.faceArena|];
    }
    assert r.faces == seq(t + 1, j => |s0.faceArena| + j);
    SameArenaKeepsLinked(s, r, fi, |s0.arena|, |s0.faceArena|, 0, 3 * t, |s0.arena| + 3 * t + 0);
  }

  /** A new key whose record lies at or above the bound leaves finished records as they were. */
  lemma NewKeyKeepsLinked(s: Links, r: Links, fi: seq<Triple>, base: int, fbase: int, to: nat, bound: int,
                          e: Edge)
    requires to <= 3 * |fi| && LinkedRange(s, fi, base, fbase, 0, to, bound)
    requires e !in s.halfEdges && r.halfEdges == s.halfEdges[e := |s.arena|] && bound <= |s.arena|
    requires |s.arena| <= |r.arena| && r.arena[..|s.arena|] == s.arena
    ensures LinkedRange(r, fi, base, fbase, 0, to, bound)
  {
    forall k | 0 <= k < to ensures LinkedAt(r, fi, base, fbase, k, bound) {
      assert LinkedAt(s, fi, base, fbase, k, bound);
      assert r.arena[base + k] == s.arena[base + k];
      assert PairedBelow(r.halfEdges, EdgeOf(fi, k), bound) == PairedBelow(s.halfEdges, EdgeOf(fi, k), bound);
    }
  }

  /** A blank record appended to blank records, with nothing linked yet. */
  lemma NewKeyKeepsUnlinked(s: Links, r: Links, fi: seq<Triple>, base: int, from: nat, to: nat, to': nat,
                            lo: int)
    requires to < to' == to + 1 <= 3 * |fi| && UnlinkedRange(s, fi, base, from, to, lo, lo)
    requires |s.arena| == base + to && r.arena == s.arena + [BlankHalfEdge]
    ensures UnlinkedRange(r, fi, base, from, to', lo, lo)
  {
    forall k | from <= k < to' ensures UnlinkedAt(r, fi, base, k, lo, lo) {
      if k < to {
        assert UnlinkedAt(s, fi, base, k, lo, lo);
      }
    }
  }

  lemma CreateStep(s: Links, s0: Links, fi: seq<Triple>, t: nat, c: nat, c': nat)
    requires InFace(s, s0, fi, t, c, 0) && c < 3 && c' == c + 1
    requires EdgeOf(fi, 3 * t + c) !in s.halfEdges
    ensures InFace(CreateEdge(s, EdgePair(fi[t], c)), s0, fi, t, c', 0)
  {
    var r := CreateEdge(s, EdgePair(fi[t], c));
    MapAtStep(fi, |s0.arena|, 3 * t + c, 3 * t + c');
    EdgeOfFace(fi, t, c);
    assert r.arena[..|s.arena|] == s.arena;
    assert r.arena[..|s0.arena|] == s0.arena by {
      assert r.arena[..|s0.arena|] == s.arena[..|s0.arena|];
    }
    NewKeyKeepsLinked(s, r, fi, |s0.arena|, |s0.faceArena|, 3 * t, |s0.arena| + 3 * t + 0, EdgePair(fi[t], c));
    NewKeyKeepsUnlinked(s, r, fi, |s0.arena|, 3 * t + 0, 3 * t + c, 3 * t + c', |s0.arena| + 3 * t);
  }

  // ---------------------------------------------------------------------
  // One link

  /** What one link does to record x of the arena: the linked record is rebuilt, its twin (the
      record of the reverse edge, if any) gets it as opposite, and nothing else changes. */
  lemma LinkEdgeArena(s: Links, f: Triple, fid: int, i: nat, x: int)
    requires MapInArena(s) && TripleIn(f, |s.vertices|) && 0 <= fid < |s.faceArena|
    requires EdgePair(f, i) in s.halfEdges && EdgePair(f, i + 1) in s.halfEdges
    requires 0 <= x < |s.arena|
    ensures var e := EdgePair(f, i);
            var h, oe := s.halfEdges[e], OppositeEdgePair(e);
            LinkEdge(s, f, fid, i).arena[x] ==
              if x == h then
                HalfEdge(fid, e.0, if oe in s.halfEdges then s.halfEdges[oe] else s.arena[h].opposite,
                         s.halfEdges[EdgePair(f, i + 1)])
              else if oe in s.halfEdges && x == s.halfEdges[oe] then s.arena[x].(opposite := h)
              else s.arena[x]
  {
  }

  /** Linking edge kk of the first m pairs record base + kk with the record of the reverse edge:
      the bound b of every record's pairing moves past base + kk, and only that twin's pairing
      changes. */
  lemma PairedGrows(fi: seq<Triple>, base: int, m: nat, k: nat, kk: nat, lo: int, b: int, b': int)
    requires DistinctEdges(fi) && k < m && kk < m <= 3 * |fi| && b == base + kk && b' == b + 1 && lo <= b
    ensures var hm, oe := MapAt(fi, base, m), OppositeEdgePair(EdgeOf(fi, kk));
            var twin := oe in hm && hm[oe] == base + k;
            && PairedBelow(hm, EdgeOf(fi, k), b') == (if twin then b else PairedBelow(hm, EdgeOf(fi, k), b))
            && PairedBetween(hm, EdgeOf(fi, k), lo, b') == (if twin then b else PairedBetween(hm, EdgeOf(fi, k), lo, b))
  {
    MapAtDistinct(fi, base, m);
  }

  /** What linking edge l of face t needs, in a state whose map holds the first 3 t + 3 edges. */
  ghost predicate Ready(s: Links, fi: seq<Triple>, base: int, fid: int, t: nat, l: nat) {
    DistinctEdges(fi) && t < |fi| && l < 3 && 0 <= base && |s.arena| == base + 3 * t + 3
    && s.halfEdges == MapAt(fi, base, 3 * t + 3)
    && MapInArena(s) && TripleIn(fi[t], |s.vertices|) && 0 <= fid < |s.faceArena|
    && EdgePair(fi[t], l) in s.halfEdges && EdgePair(fi[t], l + 1) in s.halfEdges
  }

  lemma ReadyFacts(s: Links, fi: seq<Triple>, base: int, fid: int, t: nat, l: nat)
    requires Ready(s, fi, base, fid, t, l)
    ensures s.halfEdges[EdgePair(fi[t], l)] == base + 3 * t + l
    ensures s.halfEdges[EdgePair(fi[t], l + 1)] == base + NextInFace(3 * t + l)
  {
    MapAtDistinct(fi, base, 3 * t + 3);
    EdgeOfFace(fi, t, l);
  }

  lemma ReadyTwin(s: Links, fi: seq<Triple>, base: int, fid: int, t: nat, l: nat)
    requires Ready(s, fi, base, fid, t, l)
    ensures var oe := OppositeEdgePair(EdgePair(fi[t], l));
            oe in s.halfEdges ==> base <= s.halfEdges[oe] < base + 3 * t + 3
                                  && EdgeOf(fi, s.halfEdges[oe] - base) == oe
  {
    var oe := OppositeEdgePair(EdgePair(fi[t], l));
    if oe in s.halfEdges {
      MapAtValue(fi, base, 3 * t + 3, oe);
    }
  }

  /** Records of earlier faces: only the twin of the new record changes, and it gains the new
      record as opposite. */
  lemma LinkKeepsEarlier(s: Links, fi: seq<Triple>, base: int, fbase: int, fid: int, t: nat, l: nat, l': nat)
    requires Ready(s, fi, base, fid, t, l) && l' == l + 1
    requires LinkedRange(s, fi, base, fbase, 0, 3 * t, base + 3 * t + l)
    ensures LinkedRange(LinkEdge(s, fi[t], fid, l), fi, base, fbase, 0, 3 * t, base + 3 * t + l')
  {
    var r := LinkEdge(s, fi[t], fid, l);
    var b, b' := base + 3 * t + l, base + 3 * t + l';
    ReadyFacts(s, fi, base, fid, t, l);
    forall k | 0 <= k < 3 * t ensures LinkedAt(r, fi, base, fbase, k, b') {
      assert LinkedAt(s, fi, base, fbase, k, b);
      LinkEdgeArena(s, fi[t], fid, l, base + k);
      PairedGrows(fi, base, 3 * t + 3, k, 3 * t + l, base, b, b');
    }
  }

  /** The records of the face being linked: the new record is finished, and an earlier sibling
      that is its twin already had it as opposite. */
  lemma LinkKeepsCurrent(s: Links, fi: seq<Triple>, base: int, fbase: int, fid: int, t: nat, l: nat, l': nat)
    requires Ready(s, fi, base, fid, t, l) && l' == l + 1 && fid == fbase + t
    requires LinkedRange(s, fi, base, fbase, 3 * t, 3 * t + l, base + 3 * t + 3)
    requires UnlinkedAt(s, fi, base, 3 * t + l, base + 3 * t, base + 3 * t + l)
    ensures LinkedRange(LinkEdge(s, fi[t], fid, l), fi, base, fbase, 3 * t, 3 * t + l', base + 3 * t + 3)
  {
    var r := LinkEdge(s, fi[t], fid, l);
    var e := EdgePair(fi[t], l);
    var bound := base + 3 * t + 3;
    ReadyFacts(s, fi, base, fid, t, l);
    ReadyTwin(s, fi, base, fid, t, l);
    EdgeOfFace(fi, t, l);
    OppositeInvolution(e);
    forall k | 3 * t <= k < 3 * t + l' ensures LinkedAt(r, fi, base, fbase, k, bound) {
      LinkEdgeArena(s, fi[t], fid, l, base + k);
      if k == 3 * t + l {
        Split3(t, l);
      } else {
        assert LinkedAt(s, fi, base, fbase, k, bound);
      }
    }
  }

  /** The records of the face not linked yet: only the twin of the new record changes. */
  lemma LinkKeepsUnlinked(s: Links, fi: seq<Triple>, base: int, fid: int, t: nat, l: nat, l': nat)
    requires Ready(s, fi, base, fid, t, l) && l' == l + 1
    requires UnlinkedRange(s, fi, base, 3 * t + l, 3 * t + 3, base + 3 * t, base + 3 * t + l)
    ensures UnlinkedRange(LinkEdge(s, fi[t], fid, l), fi, base, 3 * t + l', 3 * t + 3, base + 3 * t, base + 3 * t + l')
  {
    var r := LinkEdge(s, fi[t], fid, l);
    var lo, b, b' := base + 3 * t, base + 3 * t + l, base + 3 * t + l';
    ReadyFacts(s, fi, base, fid, t, l);
    forall k | 3 * t + l' <= k < 3 * t + 3 ensures UnlinkedAt(r, fi, base, k, lo, b') {
      assert UnlinkedAt(s, fi, base, k, lo, b);
      LinkEdgeArena(s, fi[t], fid, l, base + k);
      PairedGrows(fi, base, 3 * t + 3, k, 3 * t + l, lo, b, b');
    }
  }

  /** The untouched prefixes of the arenas after one link. */
  lemma LinkKeepsFrame(s: Links, s0: Links, fi: seq<Triple>, t: nat, l: nat)
    requires Ready(s, fi, |s0.arena|, |s0.faceArena| + t, t, l) && Frame(s, s0, 3 * t + 3, t + 1)
    ensures Frame(LinkEdge(s, fi[t], |s0.faceArena| + t, l), s0, 3 * t + 3, t + 1)
  {
    var base, fid := |s0.arena|, |s0.faceArena| + t;
    var r := LinkEdge(s, fi[t], fid, l);
    ReadyFacts(s, fi, base, fid, t, l);
    ReadyTwin(s, fi, base, fid, t, l);
    forall x | 0 <= x < base ensures r.arena[x] == s.arena[x] {
      LinkEdgeArena(s, fi[t], fid, l, x);
    }
    assert r.arena[..base] == s0.arena by {
      assert r.arena[..base] == s.arena[..base];
    }
    assert r.faceArena[..|s0.faceArena|] == s0.faceArena by {
      assert r.faceArena[..|s0.faceArena|] == s.faceArena[..|s0.faceArena|];
    }
  }

  /** The faces and the vertices after one link: the face and the start vertex now point at the
      new record. */
  lemma LinkKeepsMarks(s: Links, s0: Links, fi: seq<Triple>, t: nat, l: nat, l': nat)
    requires Ready(s, fi, |s0.arena|, |s0.faceArena| + t, t, l) && l' == l + 1
    requires |s.vertices| == |s0.vertices| && FacesDone(s, |s0.arena|, |s0.faceArena|, t)
    requires s.faceArena[|s0.faceArena| + t] == Face(if l == 0 then NULL else |s0.arena| + 3 * t + l - 1, None, None)
    requires VerticesAfter(s, s0, fi, |s0.arena|, 3 * t + l)
    ensures var r := LinkEdge(s, fi[t], |s0.faceArena| + t, l);
            && FacesDone(r, |s0.arena|, |s0.faceArena|, t)
            && r.faceArena[|s0.faceArena| + t] == Face(if l' == 0 then NULL else |s0.arena| + 3 * t + l' - 1, None, None)
            && VerticesAfter(r, s0, fi, |s0.arena|, 3 * t + l')
  {
    var base, fid := |s0.arena|, |s0.faceArena| + t;
    var r := LinkEdge(s, fi[t], fid, l);
    ReadyFacts(s, fi, base, fid, t, l);
    EdgeOfFace(fi, t, l);
    forall v | 0 <= v < |r.vertices|
      ensures r.vertices[v] == s0.vertices[v].(halfEdge := LastOut(fi, v, 3 * t + l', base, s0.vertices[v].halfEdge))
    {
      LastOutStep(fi, v, 3 * t + l, 3 * t + l', base, s0.vertices[v].halfEdge);
    }
  }

  lemma InFaceReady(s: Links, s0: Links, fi: seq<Triple>, t: nat, l: nat)
    requires InFace(s, s0, fi, t, 3, l) && l < 3 && DistinctEdges(fi) && TriplesIn(fi, |s0.vertices|)
    ensures Ready(s, fi, |s0.arena|, |s0.faceArena| + t, t, l)
  {
    MapAtDistinct(fi, |s0.arena|, 3 * t + 3);
    EdgeOfFace(fi, t, l);
  }

  lemma LinkStep(s: Links, s0: Links, fi: seq<Triple>, t: nat, l: nat, l': nat)
    requires InFace(s, s0, fi, t, 3, l) && l < 3 && l' == l + 1
    requires DistinctEdges(fi) && TriplesIn(fi, |s0.vertices|)
    ensures Ready(s, fi, |s0.arena|, |s0.faceArena| + t, t, l)
    ensures InFace(LinkEdge(s, fi[t], |s0.faceArena| + t, l), s0, fi, t, 3, l')
  {
    var base, fbase := |s0.arena|, |s0.faceArena|;
    InFaceReady(s, s0, fi, t, l);
    assert UnlinkedAt(s, fi, base, 3 * t + l, base + 3 * t, base + 3 * t + l);
    LinkKeepsEarlier(s, fi, base, fbase, fbase + t, t, l, l');
    LinkKeepsCurrent(s, fi, base, fbase, fbase + t, t, l, l');
    LinkKeepsUnlinked(s, fi, base, fbase + t, t, l, l');
    LinkKeepsFrame(s, s0, fi, t, l);
    LinkKeepsMarks(s, s0, fi, t, l, l');
  }

  lemma FinishFace(s: Links, s0: Links, fi: seq<Triple>, t: nat, t': nat)
    requires InFace(s, s0, fi, t, 3, 3) && t' == t + 1
    ensures AfterFaces(s, s0, fi, t')
  {
    var base, fbase := |s0.arena|, |s0.faceArena|;
    var bound := base + 3 * t';
    assert bound == base + 3 * t + 3;
    forall k | 0 <= k < 3 * t' ensures LinkedAt(s, fi, base, fbase, k, bound) {
      assert LinkedAt(s, fi, base, fbase, k, base + 3 * t + 3);
    }
    forall j | 0 <= j < t'
      ensures 0 <= fbase + j < |s.faceArena| && s.faceArena[fbase + j] == Face(base + 3 * j + 2, None, None)
    {
    }
  }

  // ---------------------------------------------------------------------
  // The loops

  /** The first inner loop of face t. */
  lemma {:induction false} CreateEdgesShape(q: Links, s0: Links, fi: seq<Triple>, t: nat, i: nat)
    requires InFace(q, s0, fi, t, 0, 0) && i <= 3 && DistinctEdges(fi)
    ensures InFace(CreateEdges(q, fi[t], i), s0, fi, t, i, 0)
  {
    if i > 0 {
      CreateEdgesShape(q, s0, fi, t, i - 1);
      FreshEdge(fi, |s0.arena|, 3 * t + (i - 1));
      CreateStep(CreateEdges(q, fi[t], i - 1), s0, fi, t, i - 1, i);
    }
  }

  /** What the second inner loop needs. */
  predicate LinkPre(q: Links, f: Triple, fid: int) {
    MapInArena(q) && TripleIn(f, |q.vertices|) && 0 <= fid < |q.faceArena|
    && forall j | 0 <= j < 3 :: EdgePair(f, j) in q.halfEdges
  }

  lemma InFaceLinkPre(q: Links, s0: Links, fi: seq<Triple>, t: nat)
    requires InFace(q, s0, fi, t, 3, 0) && DistinctEdges(fi) && TriplesIn(fi, |s0.vertices|)
    ensures LinkPre(q, fi[t], |s0.faceArena| + t)
  {
    MapAtDistinct(fi, |s0.arena|, 3 * t + 3);
    EdgeOfFace(fi, t, 0);
    EdgeOfFace(fi, t, 1);
    EdgeOfFace(fi, t, 2);
  }

  /** The second inner loop of face t. */
  lemma {:induction false} LinkEdgesShape(q: Links, s0: Links, fi: seq<Triple>, t: nat, i: nat)
    requires InFace(q, s0, fi, t, 3, 0) && i <= 3 && DistinctEdges(fi) && TriplesIn(fi, |s0.vertices|)
    requires LinkPre(q, fi[t], |s0.faceArena| + t)
    ensures InFace(LinkEdges(q, fi[t], |s0.faceArena| + t, i), s0, fi, t, 3, i)
  {
    if i > 0 {
      LinkEdgesShape(q, s0, fi, t, i - 1);
      LinkStep(LinkEdges(q, fi[t], |s0.faceArena| + t, i - 1), s0, fi, t, i - 1, i);
    }
  }

  /** One iteration of the outer loop. */
  lemma BuildFaceShape(p: Links, s0: Links, fi: seq<Triple>, t: nat, t': nat)
    requires AfterFaces(p, s0, fi, t) && t < |fi| && t' == t + 1
    requires DistinctEdges(fi) && TriplesIn(fi, |s0.vertices|)
    ensures MapInArena(p) && TripleIn(fi[t], |p.vertices|)
    ensures AfterFaces(BuildFace(p, fi[t]), s0, fi, t')
  {
    MapAtDistinct(fi, |s0.arena|, 3 * t);
    StartFace(p, s0, fi, t);
    CreateEdgesShape(AddFace(p), s0, fi, t, 3);
    var q := CreateEdges(AddFace(p), fi[t], 3);
    InFaceLinkPre(q, s0, fi, t);
    assert |p.faceArena| == |s0.faceArena| + t;
    LinkEdgesShape(q, s0, fi, t, 3);
    FinishFace(LinkEdges(q, fi[t], |s0.faceArena| + t, 3), s0, fi, t, t');
  }

  lemma {:induction false} BuildFacesShape(s0: Links, fi: seq<Triple>, t: nat)
    requires t <= |fi| && DistinctEdges(fi) && TriplesIn(fi, |s0.vertices|)
    ensures AfterFaces(BuildFaces(Cleared(s0), fi, t), s0, fi, t)
  {
    if t == 0 {
      StartClear(s0, fi);
    } else {
      BuildFacesShape(s0, fi, t - 1);
      BuildFaceShape(BuildFaces(Cleared(s0), fi, t - 1), s0, fi, t - 1, t);
    }
  }

  // ---------------------------------------------------------------------
  // What the build leaves, when no directed edge repeats

  lemma BuiltShape(s0: Links, fi: seq<Triple>)
    requires DistinctEdges(fi) && TriplesIn(fi, |s0.vertices|)
    ensures AfterFaces(Built(s0, fi), s0, fi, |fi|)
  {
    BuildFacesShape(s0, fi, |fi|);
  }

  /** Face t is the t-th new face record; it points at the half-edge of its edge (c, a); its three
      half-edges start at a, b and c, point back at the face and follow one another in a cycle. */
  lemma BuiltFace(s0: Links, fi: seq<Triple>, t: nat, i: nat)
    requires DistinctEdges(fi) && TriplesIn(fi, |s0.vertices|) && t < |fi| && i < 3
    ensures var r, h := Built(s0, fi), |s0.arena| + 3 * t + i;
            && |r.faces| == |fi| && r.faces[t] == |s0.faceArena| + t
            && r.faceArena[r.faces[t]] == Face(|s0.arena| + 3 * t + 2, None, None)
            && 0 <= h < |r.arena| && r.arena[h].face == r.faces[t]
            && r.arena[h].startVertex == fi[t].At(i)
            && r.arena[h].next == |s0.arena| + 3 * t + (i + 1) % 3
  {
    var r, base := Built(s0, fi), |s0.arena|;
    BuiltShape(s0, fi);
    assert LinkedAt(r, fi, base, |s0.faceArena|, 3 * t + i, base + 3 * |fi|);
    EdgeOfFace(fi, t, i);
    Split3(t, i);
  }

  /** The twin of record base + k in a finished build is the record of the reverse edge. */
  lemma FinishedTwin(r: Links, s0: Links, fi: seq<Triple>, k: nat)
    requires DistinctEdges(fi) && AfterFaces(r, s0, fi, |fi|) && k < 3 * |fi|
    ensures var base, e := |s0.arena|, EdgeOf(fi, k);
            && 0 <= base + k < |r.arena|
            && r.arena[base + k].opposite == (if OppositeEdgePair(e) in r.halfEdges then r.halfEdges[OppositeEdgePair(e)] else NULL)
            && (OppositeEdgePair(e) in r.halfEdges ==>
                  base <= r.halfEdges[OppositeEdgePair(e)] < base + 3 * |fi|
                  && EdgeOf(fi, r.halfEdges[OppositeEdgePair(e)] - base) == OppositeEdgePair(e))
  {
    var base := |s0.arena|;
    assert LinkedAt(r, fi, base, |s0.faceArena|, k, base + 3 * |fi|);
    MapAtDistinct(fi, base, 3 * |fi|);
    if OppositeEdgePair(EdgeOf(fi, k)) in r.halfEdges {
      MapAtValue(fi, base, 3 * |fi|, OppositeEdgePair(EdgeOf(fi, k)));
    }
  }

  /** A half-edge's twin is the half-edge of the reverse edge, or NULL when no face has the reverse
      edge; twins are mutual, and a twin starts where the half-edge ends. */
  lemma BuiltOpposite(s0: Links, fi: seq<Triple>, k: nat)
    requires DistinctEdges(fi) && TriplesIn(fi, |s0.vertices|) && k < 3 * |fi|
    ensures var r, base := Built(s0, fi), |s0.arena|;
            var o := r.arena[base + k].opposite;
            && (o == NULL <==> OppositeEdgePair(EdgeOf(fi, k)) !in r.halfEdges)
            && (o != NULL ==> base <= o < base + 3 * |fi| && r.arena[o].opposite == base + k
                              && r.arena[o].startVertex == EdgeOf(fi, k).1)
  {
    var r, base := Built(s0, fi), |s0.arena|;
    BuiltShape(s0, fi);
    FinishedTwin(r, s0, fi, k);
    var e := EdgeOf(fi, k);
    if OppositeEdgePair(e) in r.halfEdges {
      var j := r.halfEdges[OppositeEdgePair(e)] - base;
      FinishedTwin(r, s0, fi, j);
      assert LinkedAt(r, fi, base, |s0.faceArena|, j, base + 3 * |fi|);
      OppositeInvolution(e);
      MapAtDistinct(fi, base, 3 * |fi|);
    }
  }

  /** Every vertex points at the last new half-edge leaving it, and keeps its old half-edge only
      when no face starts an edge there. */
  lemma BuiltVertex(s0: Links, fi: seq<Triple>, v: nat)
    requires DistinctEdges(fi) && TriplesIn(fi, |s0.vertices|) && v < |s0.vertices|
    ensures var r := Built(s0, fi);
            && |r.vertices| == |s0.vertices|
            && r.vertices[v] == s0.vertices[v].(halfEdge := LastOut(fi, v, 3 * |fi|, |s0.arena|, s0.vertices[v].halfEdge))
  {
    BuiltShape(s0, fi);
  }
}
