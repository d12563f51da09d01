/** The pure side of `Renderer::rasterize` and `Renderer::fragmentShading` (Renderer.cpp): the
    bounding box of a projected face, the inside test on barycentric coordinates, the fragments a
    face offers pixel by pixel in the order the loops visit them, the depth test that keeps one of
    them per pixel, and the frame buffer the kept fragments produce. */
module Raster {
  import opened Matrices
  import opened MeshTypes
  import opened MeshWalks
  import opened MeshNormals
  import opened Utils
  import opened Images
  import opened Scenes

  /** The values of the `ShadingPolicy` enum. */
  const FLAT_SHADING: int := 0
  const GOURAUD_SHADING: int := 1
  const PHONG_SHADING: int := 2

  /** A pixel `(i, j)` of the loops: column, then row counted from the bottom. */
  type Pixel = (int, int)

  /** `Fragment`: the frame-buffer row and column, the interpolated world position and normal, the
      three candidate colours and the surface's colour settings (an empty pointer unless Phong). */
  datatype Fragment = Fragment(i: int, j: int, position: Mat<real>, normal: Mat<real>,
                               flatColor: Mat<real>, gouraudColor: Mat<real>, phongColor: Mat<real>,
                               colorSettings: Option<ColorSettings>)

  /** A fragment has what its policy's colour needs: the colours are 3-vectors, and under Phong so
      are its position and normal, and its colour settings are set. */
  predicate FragmentReady(f: Fragment, policy: int) {
    IsVector3(f.flatColor) && IsVector3(f.gouraudColor)
    && (policy == PHONG_SHADING ==>
          IsVector3(f.position) && IsVector3(f.normal) && f.colorSettings.Some? && SettingsReady(f.colorSettings.value))
  }

  // ---------------------------------------------------------------------
  // Bounding box

  /** `std::ceil`, through the floor of the negation. */
  function Ceil(x: real): (c: int)
    ensures (c - 1) as real < x <= c as real
  {
    -((-x).Floor)
  }

  function Min3(a: real, b: real, c: real): (m: real)
    ensures m <= a && m <= b && m <= c && (m == a || m == b || m == c)
  {
    var ab := if b < a then b else a;
    if c < ab then c else ab
  }

  function Max3(a: real, b: real, c: real): (m: real)
    ensures m >= a && m >= b && m >= c && (m == a || m == b || m == c)
  {
    var ab := if b > a then b else a;
    if c > ab then c else ab
  }

  /** The loop bounds: `xMin`, `xMax` (exclusive), `yMin`, `yMax` (exclusive). */
  datatype Box = Box(xMin: int, xMax: int, yMin: int, yMax: int)

  /** Floor of the smallest and ceiling of the largest screen coordinate, in x and in y. */
  function BoundingBox(v0: Mat<real>, v1: Mat<real>, v2: Mat<real>): (b: Box)
    requires IsVector3(v0) && IsVector3(v1) && IsVector3(v2)
    ensures b.xMin as real <= v0.data[0] <= b.xMax as real && b.yMin as real <= v0.data[1] <= b.yMax as real
    ensures b.xMin as real <= v1.data[0] <= b.xMax as real && b.yMin as real <= v1.data[1] <= b.yMax as real
    ensures b.xMin as real <= v2.data[0] <= b.xMax as real && b.yMin as real <= v2.data[1] <= b.yMax as real
    ensures b.xMin <= b.xMax && b.yMin <= b.yMax
    ensures (b.xMax - b.xMin) as real <= Max3(v0.data[0], v1.data[0], v2.data[0]) - Min3(v0.data[0], v1.data[0], v2.data[0]) + 2.0
  {
    Box(Min3(v0.data[0], v1.data[0], v2.data[0]).Floor, Ceil(Max3(v0.data[0], v1.data[0], v2.data[0])),
        Min3(v0.data[1], v1.data[1], v2.data[1]).Floor, Ceil(Max3(v0.data[1], v1.data[1], v2.data[1])))
  }

  /** A face is dropped when its box leaves the image on the left, the right or the bottom, or starts
      at or above its top; a box that only reaches past the top is kept. */
  predicate Skipped(b: Box, width: int, height: int) {
    b.xMin < 0 || b.xMax >= width || b.yMin < 0 || b.yMin >= height
  }

  // ---------------------------------------------------------------------
  // Inside test

  /** The test as written: every coordinate at least -0.01, and the coordinate of index 1 (for
      every one of the three iterations) at most 1.01. */
  predicate Inside(b: Mat<real>)
    requires IsVector3(b)
  {
    b.data[0] >= -0.01 && b.data[1] >= -0.01 && b.data[2] >= -0.01 && b.data[1] <= 1.01
  }

  /** The loop of the test. */
  method InsideTest(b: Mat<real>) returns (inside: bool)
    requires IsVector3(b)
    ensures inside <==> Inside(b)
  {
    inside := true;
    for k := 0 to 3
      invariant inside <==> (forall k' | 0 <= k' < k :: b.data[k'] >= -0.01) && (k > 0 ==> b.data[1] <= 1.01)
    {
      if b.data[k] < -0.01 || b.data[1] > 1.01 {
        inside := false;
      }
    }
  }

  /** Every point of the closed triangle passes the test. */
  lemma InsideTriangle(b: Mat<real>)
    requires IsVector3(b) && 0.0 <= b.data[0] && 0.0 <= b.data[1] && 0.0 <= b.data[2]
    requires b.data[0] + b.data[1] + b.data[2] == 1.0
    ensures Inside(b)
  {
  }

  /** For barycentric coordinates (summing to one) the test bounds every coordinate by 1.02 even
      though only one upper bound is checked: the test admits a band of width 0.01 around the
      triangle, and slightly more beyond the two corners whose upper bound is not checked. */
  lemma InsideBounded(b: Mat<real>)
    requires IsVector3(b) && b.data[0] + b.data[1] + b.data[2] == 1.0 && Inside(b)
    ensures b.data[0] <= 1.02 && b.data[1] <= 1.01 && b.data[2] <= 1.02
  {
  }

  /** A point past corner 0 whose coordinate 0 exceeds 1.01 passes the test. */
  lemma InsideUncheckedCorner()
    ensures Inside(Vector3(1.015, -0.0075, -0.0075)) && Vector3(1.015, -0.0075, -0.0075).data[0] > 1.01
  {
  }

  // ---------------------------------------------------------------------
  // The fragments a face offers

  /** Everything the inner loops read for one face: its corners on screen, in the world, their
      normals and (under Gouraud) colours, the face colour (under flat shading) and the surface's
      colour settings. */
  datatype FaceView = FaceView(v0: Mat<real>, v1: Mat<real>, v2: Mat<real>,
                               p0: Mat<real>, p1: Mat<real>, p2: Mat<real>,
                               n0: Mat<real>, n1: Mat<real>, n2: Mat<real>,
                               c0: Mat<real>, c1: Mat<real>, c2: Mat<real>,
                               flat: Mat<real>, colorSettings: ColorSettings)

  predicate ViewReady(fv: FaceView) {
    IsVector3(fv.v0) && IsVector3(fv.v1) && IsVector3(fv.v2)
    && IsVector3(fv.p0) && IsVector3(fv.p1) && IsVector3(fv.p2)
    && IsVector3(fv.n0) && IsVector3(fv.n1) && IsVector3(fv.n2)
    && IsVector3(fv.c0) && IsVector3(fv.c1) && IsVector3(fv.c2)
    && IsVector3(fv.flat) && SettingsReady(fv.colorSettings)
  }

  /** The fragment built for pixel (x, y): row `height - y`, column x, and only the fields its policy
      sets (the others keep their zero defaults). */
  function PixelFragment(math: Math, fv: FaceView, policy: int, height: int, x: int, y: int, bary: Mat<real>): (f: Fragment)
    requires ViewReady(fv) && IsVector3(bary)
    ensures f.i == height - y && f.j == x && FragmentReady(f, policy)
    ensures policy == GOURAUD_SHADING ==> f.gouraudColor == LinearInterpolate(fv.c0, fv.c1, fv.c2, bary)
    ensures policy == FLAT_SHADING ==> f.flatColor == fv.flat
    ensures policy != FLAT_SHADING ==> f.flatColor == Black()
  {
    Fragment(height - y, x,
             if policy == PHONG_SHADING then LinearInterpolate(fv.p0, fv.p1, fv.p2, bary) else Zero3,
             if policy == PHONG_SHADING then Normalized(math, LinearInterpolate(fv.n0, fv.n1, fv.n2, bary)) else Zero3,
             if policy == FLAT_SHADING then fv.flat else Black(),
             if policy == GOURAUD_SHADING then LinearInterpolate(fv.c0, fv.c1, fv.c2, bary) else Black(),
             Black(),
             if policy == PHONG_SHADING then Some(fv.colorSettings) else None)
  }

  /** A fragment offered to the depth test: its pixel, its interpolated depth and the fragment. */
  datatype Candidate = Candidate(pixel: Pixel, depth: real, fragment: Fragment)

  /** The screen position of pixel (x, y). */
  function PixelPoint(x: int, y: int): (v: Mat<real>)
    ensures IsVector3(v)
  {
    Vector3(x as real, y as real, 0.0)
  }

  /** What pixel (x, y) offers: one candidate if its barycentric coordinates pass the test, else none. */
  function PixelCandidates(math: Math, fv: FaceView, policy: int, height: int, x: int, y: int): seq<Candidate>
    requires ViewReady(fv) && NonDegenerate(fv.v0, fv.v1, fv.v2)
  {
    var bary := BaryCoord(fv.v0, fv.v1, fv.v2, PixelPoint(x, y));
    if Inside(bary) then
      [Candidate((x, y), LinearInterpolate(fv.v0, fv.v1, fv.v2, bary).data[2],
                 PixelFragment(math, fv, policy, height, x, y, bary))]
    else []
  }

  /** Column x, rows `yMin` up to y (exclusive), in the inner loop's order. */
  function ColumnCandidates(math: Math, fv: FaceView, policy: int, height: int, x: int, yMin: int, y: int): seq<Candidate>
    requires ViewReady(fv) && NonDegenerate(fv.v0, fv.v1, fv.v2)
    decreases y - yMin
  {
    if y <= yMin then []
    else ColumnCandidates(math, fv, policy, height, x, yMin, y - 1) + PixelCandidates(math, fv, policy, height, x, y - 1)
  }

  /** The box's columns from `xMin` up to x (exclusive), in the outer loop's order. */
  function BoxCandidates(math: Math, fv: FaceView, policy: int, height: int, box: Box, x: int): seq<Candidate>
    requires ViewReady(fv) && NonDegenerate(fv.v0, fv.v1, fv.v2)
    decreases x - box.xMin
  {
    if x <= box.xMin then []
    else BoxCandidates(math, fv, policy, height, box, x - 1)
         + ColumnCandidates(math, fv, policy, height, x - 1, box.yMin, box.yMax)
  }

  /** A face whose box passes the clipping test offers its whole box; any other face nothing. */
  function FaceCandidates(math: Math, fv: FaceView, policy: int, width: int, height: int): seq<Candidate>
    requires ViewReady(fv)
    requires Skipped(BoundingBox(fv.v0, fv.v1, fv.v2), width, height) || NonDegenerate(fv.v0, fv.v1, fv.v2)
  {
    var box := BoundingBox(fv.v0, fv.v1, fv.v2);
    if Skipped(box, width, height) then [] else BoxCandidates(math, fv, policy, height, box, box.xMax)
  }

  // ---------------------------------------------------------------------
  // The faces of the scene

  /** The maps `rasterize` reads: the divided positions, the vertex colours and the face colours. */
  datatype Caches = Caches(divided: map<VertexKey, Mat<real>>, vertexColors: map<VertexKey, Mat<real>>,
                           faceColors: map<FaceKey, Mat<real>>)

  /** The vertices of face j of a mesh, as `getFaceVertices` lists them. */
  function Corners(s: Links, j: int): (c: seq<int>)
    requires FacesReady(s) && 0 <= j < |s.faces|
    ensures |c| == 3 && 0 <= c[0] < |s.vertices| && 0 <= c[1] < |s.vertices| && 0 <= c[2] < |s.vertices|
  {
    FaceCorners(s.arena, s.faceArena[s.faces[j]].halfEdge)
  }

  /** Every vertex of the scene has a divided position, a 3-vector. */
  ghost predicate DividedReady(scene: Scene, divided: map<VertexKey, Mat<real>>) {
    ObjectsReady(scene.objects)
    && forall k: VertexKey | IsVertexKey(scene, k) :: k in divided && IsVector3(divided[k])
  }

  /** Corner k of face j of object o on screen. */
  function ScreenCorner(scene: Scene, divided: map<VertexKey, Mat<real>>, o: int, j: int, k: int): (v: Mat<real>)
    requires DividedReady(scene, divided) && 0 <= o < |scene.objects| && 0 <= j < |scene.objects[o].mesh.faces| && 0 <= k < 3
    ensures IsVector3(v)
  {
    var c := Corners(scene.objects[o].mesh, j);
    assert IsVertexKey(scene, (o, c[k]));
    divided[(o, c[k])]
  }

  /** The face is either dropped by the clipping test or has a nonzero area on screen. */
  predicate FaceDrawable(scene: Scene, divided: map<VertexKey, Mat<real>>, o: int, j: int)
    requires DividedReady(scene, divided) && 0 <= o < |scene.objects| && 0 <= j < |scene.objects[o].mesh.faces|
  {
    var v0, v1, v2 := ScreenCorner(scene, divided, o, j, 0), ScreenCorner(scene, divided, o, j, 1),
                      ScreenCorner(scene, divided, o, j, 2);
    Skipped(BoundingBox(v0, v1, v2), Width(scene), Height(scene)) || NonDegenerate(v0, v1, v2)
  }

  /** What `rasterize` needs of its maps under the given policy. */
  ghost predicate CachesReady(scene: Scene, policy: int, caches: Caches) {
    DividedReady(scene, caches.divided)
    && (forall o, j | 0 <= o < |scene.objects| && 0 <= j < |scene.objects[o].mesh.faces| ::
          FaceDrawable(scene, caches.divided, o, j))
    && (policy == GOURAUD_SHADING ==>
          forall k: VertexKey | IsVertexKey(scene, k) :: k in caches.vertexColors && IsVector3(caches.vertexColors[k]))
    && (policy == FLAT_SHADING ==>
          forall k: FaceKey | IsFaceKey(scene, k) :: k in caches.faceColors && IsVector3(caches.faceColors[k]))
  }

  /** The view of face j of object o: what the body of the face loop reads from the maps and the mesh. */
  function ViewOf(scene: Scene, policy: int, caches: Caches, o: int, j: int): (fv: FaceView)
    requires CachesReady(scene, policy, caches) && 0 <= o < |scene.objects| && 0 <= j < |scene.objects[o].mesh.faces|
    ensures ViewReady(fv)
    ensures fv.v0 == ScreenCorner(scene, caches.divided, o, j, 0) && fv.v1 == ScreenCorner(scene, caches.divided, o, j, 1)
            && fv.v2 == ScreenCorner(scene, caches.divided, o, j, 2)
    ensures Skipped(BoundingBox(fv.v0, fv.v1, fv.v2), Width(scene), Height(scene)) || NonDegenerate(fv.v0, fv.v1, fv.v2)
  {
    var s := scene.objects[o].mesh;
    var c := Corners(s, j);
    assert IsVertexKey(scene, (o, c[0])) && IsVertexKey(scene, (o, c[1])) && IsVertexKey(scene, (o, c[2]));
    assert IsFaceKey(scene, (o, s.faces[j]));
    assert FaceDrawable(scene, caches.divided, o, j);
    FaceView(ScreenCorner(scene, caches.divided, o, j, 0), ScreenCorner(scene, caches.divided, o, j, 1),
             ScreenCorner(scene, caches.divided, o, j, 2),
             s.vertices[c[0]].position, s.vertices[c[1]].position, s.vertices[c[2]].position,
             s.vertices[c[0]].normal.value, s.vertices[c[1]].normal.value, s.vertices[c[2]].normal.value,
             if policy == GOURAUD_SHADING then caches.vertexColors[(o, c[0])] else Zero3,
             if policy == GOURAUD_SHADING then caches.vertexColors[(o, c[1])] else Zero3,
             if policy == GOURAUD_SHADING then caches.vertexColors[(o, c[2])] else Zero3,
             if policy == FLAT_SHADING then caches.faceColors[(o, s.faces[j])] else Zero3,
             scene.objects[o].colorSettings)
  }

  /** The first k faces of object o, in the face loop's order. */
  function SurfaceCandidates(math: Math, scene: Scene, policy: int, caches: Caches, o: int, k: int): seq<Candidate>
    requires CachesReady(scene, policy, caches) && 0 <= o < |scene.objects| && 0 <= k <= |scene.objects[o].mesh.faces|
  {
    if k == 0 then []
    else SurfaceCandidates(math, scene, policy, caches, o, k - 1)
         + FaceCandidates(math, ViewOf(scene, policy, caches, o, k - 1), policy, Width(scene), Height(scene))
  }

  /** The first n objects, in the object loop's order. */
  function SceneCandidates(math: Math, scene: Scene, policy: int, caches: Caches, n: int): seq<Candidate>
    requires CachesReady(scene, policy, caches) && 0 <= n <= |scene.objects|
  {
    if n == 0 then []
    else SceneCandidates(math, scene, policy, caches, n - 1)
         + SurfaceCandidates(math, scene, policy, caches, n - 1, |scene.objects[n - 1].mesh.faces|)
  }

  // ---------------------------------------------------------------------
  // Where the candidates land

  /** A candidate's fragment sits at the frame-buffer cell of its pixel (row `height - y`, column x),
      its column is one the clipping test lets through, its row is not below 0, and it carries what
      its policy's colour needs. */
  predicate Placed(c: Candidate, width: int, height: int, policy: int) {
    c.fragment.i == height - c.pixel.1 && c.fragment.j == c.pixel.0
    && 0 <= c.pixel.0 && c.pixel.0 + 1 < width && 0 <= c.pixel.1
    && FragmentReady(c.fragment, policy)
  }

  predicate AllPlaced(cs: seq<Candidate>, width: int, height: int, policy: int) {
    forall t | 0 <= t < |cs| :: Placed(cs[t], width, height, policy)
  }

  lemma PlacedConcat(a: seq<Candidate>, b: seq<Candidate>, width: int, height: int, policy: int)
    requires AllPlaced(a, width, height, policy) && AllPlaced(b, width, height, policy)
    ensures AllPlaced(a + b, width, height, policy)
  {
    assert forall t | |a| <= t < |a + b| :: (a + b)[t] == b[t - |a|];
  }

  lemma {:induction false} ColumnPlaced(math: Math, fv: FaceView, policy: int, width: int, height: int, x: int, yMin: int, y: int)
    requires ViewReady(fv) && NonDegenerate(fv.v0, fv.v1, fv.v2)
    requires 0 <= x && x + 1 < width && 0 <= yMin
    ensures AllPlaced(ColumnCandidates(math, fv, policy, height, x, yMin, y), width, height, policy)
    decreases y - yMin
  {
    if y > yMin {
      ColumnPlaced(math, fv, policy, width, height, x, yMin, y - 1);
      PlacedConcat(ColumnCandidates(math, fv, policy, height, x, yMin, y - 1),
                   PixelCandidates(math, fv, policy, height, x, y - 1), width, height, policy);
    }
  }

  lemma {:induction false} BoxPlaced(math: Math, fv: FaceView, policy: int, width: int, height: int, box: Box, x: int)
    requires ViewReady(fv) && NonDegenerate(fv.v0, fv.v1, fv.v2)
    requires 0 <= box.xMin && x <= box.xMax < width && 0 <= box.yMin
    ensures AllPlaced(BoxCandidates(math, fv, policy, height, box, x), width, height, policy)
    decreases x - box.xMin
  {
    if x > box.xMin {
      BoxPlaced(math, fv, policy, width, height, box, x - 1);
      ColumnPlaced(math, fv, policy, width, height, x - 1, box.yMin, box.yMax);
      PlacedConcat(BoxCandidates(math, fv, policy, height, box, x - 1),
                   ColumnCandidates(math, fv, policy, height, x - 1, box.yMin, box.yMax), width, height, policy);
    }
  }

  lemma FacePlaced(math: Math, fv: FaceView, policy: int, width: int, height: int)
    requires ViewReady(fv)
    requires Skipped(BoundingBox(fv.v0, fv.v1, fv.v2), width, height) || NonDegenerate(fv.v0, fv.v1, fv.v2)
    ensures AllPlaced(FaceCandidates(math, fv, policy, width, height), width, height, policy)
  {
    var box := BoundingBox(fv.v0, fv.v1, fv.v2);
    if !Skipped(box, width, height) {
      BoxPlaced(math, fv, policy, width, height, box, box.xMax);
    }
  }

  lemma {:induction false} SurfacePlaced(math: Math, scene: Scene, policy: int, caches: Caches, o: int, k: int)
    requires CachesReady(scene, policy, caches) && 0 <= o < |scene.objects| && 0 <= k <= |scene.objects[o].mesh.faces|
    ensures AllPlaced(SurfaceCandidates(math, scene, policy, caches, o, k), Width(scene), Height(scene), policy)
  {
    if k > 0 {
      SurfacePlaced(math, scene, policy, caches, o, k - 1);
      SurfacePlacedStep(math, scene, policy, caches, o, k);
    }
  }

  lemma SurfacePlacedStep(math: Math, scene: Scene, policy: int, caches: Caches, o: int, k: int)
    requires CachesReady(scene, policy, caches) && 0 <= o < |scene.objects| && 0 < k <= |scene.objects[o].mesh.faces|
    requires AllPlaced(SurfaceCandidates(math, scene, policy, caches, o, k - 1), Width(scene), Height(scene), policy)
    ensures AllPlaced(SurfaceCandidates(math, scene, policy, caches, o, k), Width(scene), Height(scene), policy)
  {
    var fv := ViewOf(scene, policy, caches, o, k - 1);
    FacePlaced(math, fv, policy, Width(scene), Height(scene));
    PlacedConcat(SurfaceCandidates(math, scene, policy, caches, o, k - 1),
                 FaceCandidates(math, fv, policy, Width(scene), Height(scene)), Width(scene), Height(scene), policy);
  }

  /** Every fragment the scene offers sits at its pixel's frame-buffer cell, in a column from 0 to
      `width - 2` and a row from the bottom up: the last column is never drawn, and nothing but the
      depth of the face bounds the row from above. */
  lemma {:induction false} ScenePlaced(math: Math, scene: Scene, policy: int, caches: Caches, n: int)
    requires CachesReady(scene, policy, caches) && 0 <= n <= |scene.objects|
    ensures AllPlaced(SceneCandidates(math, scene, policy, caches, n), Width(scene), Height(scene), policy)
  {
    if n > 0 {
      ScenePlaced(math, scene, policy, caches, n - 1);
      ScenePlacedStep(math, scene, policy, caches, n);
    }
  }

  lemma ScenePlacedStep(math: Math, scene: Scene, policy: int, caches: Caches, n: int)
    requires CachesReady(scene, policy, caches) && 0 < n <= |scene.objects|
    requires AllPlaced(SceneCandidates(math, scene, policy, caches, n - 1), Width(scene), Height(scene), policy)
    ensures AllPlaced(SceneCandidates(math, scene, policy, caches, n), Width(scene), Height(scene), policy)
  {
    var faces := |scene.objects[n - 1].mesh.faces|;
    SurfacePlaced(math, scene, policy, caches, n - 1, faces);
    PlacedConcat(SceneCandidates(math, scene, policy, caches, n - 1),
                 SurfaceCandidates(math, scene, policy, caches, n - 1, faces),
                 Width(scene), Height(scene), policy);
  }

  // ---------------------------------------------------------------------
  // The depth test

  /** The `fragments` and `zBuffer` maps. */
  datatype Buffers = Buffers(fragments: map<Pixel, Fragment>, zBuffer: map<Pixel, real>)

  /** One candidate meets the depth test: a pixel whose stored depth is strictly greater keeps its
      fragment; otherwise the candidate's fragment and depth replace whatever was there. */
  function DepthStep(b: Buffers, c: Candidate): Buffers {
    if c.pixel in b.zBuffer && b.zBuffer[c.pixel] > c.depth then b
    else Buffers(b.fragments[c.pixel := c.fragment], b.zBuffer[c.pixel := c.depth])
  }

  /** The candidates met in order. */
  function DepthFold(b: Buffers, cs: seq<Candidate>): Buffers
    decreases |cs|
  {
    if cs == [] then b else DepthStep(DepthFold(b, cs[..|cs| - 1]), cs[|cs| - 1])
  }

  /** Meeting two lists in turn is meeting their concatenation: the loops can be cut anywhere. */
  lemma {:induction false} DepthFoldConcat(b: Buffers, xs: seq<Candidate>, ys: seq<Candidate>)
    ensures DepthFold(b, xs + ys) == DepthFold(DepthFold(b, xs), ys)
    decreases |ys|
  {
    if ys != [] {
      var ys' := ys[..|ys| - 1];
      assert (xs + ys)[..|xs + ys| - 1] == xs + ys';
      DepthFoldConcat(b, xs, ys');
    } else {
      assert xs + ys == xs;
    }
  }

  lemma DepthFoldSingle(b: Buffers, c: Candidate)
    ensures DepthFold(b, [c]) == DepthStep(b, c)
  {
    assert [c][..0] == [];
  }

  const NoBuffers: Buffers := Buffers(map[], map[])

  /** Some candidate is at p. */
  ghost predicate Covers(cs: seq<Candidate>, p: Pixel) {
    exists t :: 0 <= t < |cs| && cs[t].pixel == p
  }

  /** No candidate at p is deeper than z. */
  predicate Below(cs: seq<Candidate>, p: Pixel, z: real) {
    forall t | 0 <= t < |cs| && cs[t].pixel == p :: cs[t].depth <= z
  }

  /** Candidate t is at p with depth z, and every later candidate at p has a smaller depth. */
  predicate LastAt(cs: seq<Candidate>, p: Pixel, t: int, z: real) {
    0 <= t < |cs| && cs[t].pixel == p && cs[t].depth == z
    && forall t' | t < t' < |cs| && cs[t'].pixel == p :: cs[t'].depth < z
  }

  /** What the buffers hold at p after meeting cs from empty maps: both maps have p exactly when a
      candidate is at p; the stored depth is the greatest candidate depth there; and the stored
      fragment is that of the last candidate at that depth. */
  ghost predicate Settled(cs: seq<Candidate>, b: Buffers, p: Pixel) {
    (p in b.zBuffer <==> p in b.fragments)
    && (p in b.zBuffer <==> Covers(cs, p))
    && (p in b.zBuffer ==>
          Below(cs, p, b.zBuffer[p])
          && exists t :: LastAt(cs, p, t, b.zBuffer[p]) && b.fragments[p] == cs[t].fragment)
  }

  lemma {:induction false} DepthFoldSettles(cs: seq<Candidate>, p: Pixel)
    ensures Settled(cs, DepthFold(NoBuffers, cs), p)
    decreases |cs|
  {
    if cs == [] {
      assert !Covers(cs, p);
    } else {
      var n := |cs| - 1;
      var prev := cs[..n];
      var c := cs[n];
      DepthFoldSettles(prev, p);
      var b := DepthFold(NoBuffers, prev);
      assert DepthFold(NoBuffers, cs) == DepthStep(b, c);
      assert forall t | 0 <= t < n :: cs[t] == prev[t];
      if c.pixel != p {
        SettledOther(cs, prev, b, DepthStep(b, c), p);
      } else if p in b.zBuffer && b.zBuffer[p] > c.depth {
        SettledKept(cs, prev, b, p);
      } else {
        SettledReplaced(cs, prev, b, p);
      }
    }
  }

  lemma SettledOther(cs: seq<Candidate>, prev: seq<Candidate>, b: Buffers, b': Buffers, p: Pixel)
    requires |cs| == |prev| + 1 && cs[..|prev|] == prev && cs[|prev|].pixel != p
    requires Settled(prev, b, p)
    requires (p in b'.zBuffer <==> p in b.zBuffer) && (p in b'.fragments <==> p in b.fragments)
    requires p in b.zBuffer ==> b'.zBuffer[p] == b.zBuffer[p]
    requires p in b.fragments ==> b'.fragments[p] == b.fragments[p]
    ensures Settled(cs, b', p)
  {
    assert forall t | 0 <= t < |prev| :: cs[t] == prev[t];
    if Covers(cs, p) {
      var t :| 0 <= t < |cs| && cs[t].pixel == p;
      assert prev[t].pixel == p;
    }
    if p in b.zBuffer {
      var t :| LastAt(prev, p, t, b.zBuffer[p]) && b.fragments[p] == prev[t].fragment;
      assert LastAt(cs, p, t, b'.zBuffer[p]);
    }
  }

  lemma SettledKept(cs: seq<Candidate>, prev: seq<Candidate>, b: Buffers, p: Pixel)
    requires |cs| == |prev| + 1 && cs[..|prev|] == prev && cs[|prev|].pixel == p
    requires Settled(prev, b, p) && p in b.zBuffer && b.zBuffer[p] > cs[|prev|].depth
    ensures Settled(cs, b, p)
  {
    assert forall t | 0 <= t < |prev| :: cs[t] == prev[t];
    var t :| LastAt(prev, p, t, b.zBuffer[p]) && b.fragments[p] == prev[t].fragment;
    assert LastAt(cs, p, t, b.zBuffer[p]);
  }

  lemma SettledReplaced(cs: seq<Candidate>, prev: seq<Candidate>, b: Buffers, p: Pixel)
    requires |cs| == |prev| + 1 && cs[..|prev|] == prev && cs[|prev|].pixel == p
    requires Settled(prev, b, p) && !(p in b.zBuffer && b.zBuffer[p] > cs[|prev|].depth)
    ensures Settled(cs, DepthStep(b, cs[|prev|]), p)
  {
    assert forall t | 0 <= t < |prev| :: cs[t] == prev[t];
    var c := cs[|prev|];
    var b' := DepthStep(b, c);
    assert LastAt(cs, p, |prev|, c.depth);
    assert Covers(cs, p);
  }

  /** Every stored fragment is the fragment of a candidate at its pixel, so whatever every
      candidate satisfies, every stored fragment does. */
  lemma DepthFoldPlaced(cs: seq<Candidate>, width: int, height: int, policy: int)
    requires AllPlaced(cs, width, height, policy)
    ensures var b := DepthFold(NoBuffers, cs);
            b.fragments.Keys == b.zBuffer.Keys
            && forall p | p in b.fragments :: Placed(Candidate(p, b.zBuffer[p], b.fragments[p]), width, height, policy)
  {
    var b := DepthFold(NoBuffers, cs);
    forall p | p in b.fragments || p in b.zBuffer
      ensures p in b.fragments && p in b.zBuffer
      ensures Placed(Candidate(p, b.zBuffer[p], b.fragments[p]), width, height, policy)
    {
      DepthFoldSettles(cs, p);
      var t :| LastAt(cs, p, t, b.zBuffer[p]) && b.fragments[p] == cs[t].fragment;
      assert Placed(cs[t], width, height, policy);
    }
  }

  // ---------------------------------------------------------------------
  // The frame buffer

  /** The fragment's cell lies in a width x height image. */
  predicate InFrame(f: Fragment, width: int, height: int) {
    0 <= f.i < height && 0 <= f.j < width
  }

  predicate AllInFrame(fragments: map<Pixel, Fragment>, width: int, height: int) {
    forall p | p in fragments :: InFrame(fragments[p], width, height)
  }

  /** Every stored fragment sits at its pixel's cell and is ready for its policy's colour. */
  predicate FragmentsPlaced(fragments: map<Pixel, Fragment>, height: int, policy: int) {
    forall p | p in fragments ::
      fragments[p].i == height - p.1 && fragments[p].j == p.0 && FragmentReady(fragments[p], policy)
  }

  /** The colour `fragmentShading` writes for a fragment: the Gouraud colour, the Phong shading of
      its position and normal, or (under flat and under any other policy value) its flat colour. */
  function FragmentColor(math: Math, eye: Mat<real>, lights: seq<LightSource>, policy: int, f: Fragment): (c: Mat<real>)
    requires IsVector3(eye) && LightsReady(lights) && FragmentReady(f, policy)
    ensures IsVector3(c)
  {
    if policy == GOURAUD_SHADING then f.gouraudColor
    else if policy == PHONG_SHADING then Shaded(math, eye, f.position, f.normal, lights, f.colorSettings.value)
    else f.flatColor
  }

  /** The colour of cell (r, c): the colour of the fragment of pixel (c, height - r), black if there
      is none. */
  function CellColor(math: Math, scene: Scene, policy: int, fragments: map<Pixel, Fragment>, r: int, c: int): (color: Mat<real>)
    requires IsVector3(scene.mainCamera.eyePosition) && LightsReady(scene.lightSources)
    requires FragmentsPlaced(fragments, Height(scene), policy)
    ensures IsVector3(color)
  {
    var p := (c, Height(scene) - r);
    if p in fragments then FragmentColor(math, scene.mainCamera.eyePosition, scene.lightSources, policy, fragments[p])
    else Black()
  }

  /** The frame buffer after `fragmentShading`: height x width, every cell coloured as above. */
  function Resolved(math: Math, scene: Scene, policy: int, fragments: map<Pixel, Fragment>): (image: Mat<Mat<real>>)
    requires IsVector3(scene.mainCamera.eyePosition) && LightsReady(scene.lightSources)
    requires Width(scene) > 0 && Height(scene) > 0 && FragmentsPlaced(fragments, Height(scene), policy)
    ensures IsFloatImage(image) && image.rows == Height(scene) && image.cols == Width(scene)
  {
    var w, h := Width(scene), Height(scene);
    Mat(0, 0, h, w, seq(h * w, k requires 0 <= k < h * w => CellColor(math, scene, policy, fragments, k / w, k % w)))
  }

  /** Cell (r, c) of the resolved frame buffer holds the colour of pixel (c, height - r). */
  lemma ResolvedCell(math: Math, scene: Scene, policy: int, fragments: map<Pixel, Fragment>, r: nat, c: nat)
    requires IsVector3(scene.mainCamera.eyePosition) && LightsReady(scene.lightSources)
    requires Width(scene) > 0 && Height(scene) > 0 && FragmentsPlaced(fragments, Height(scene), policy)
    requires r < Height(scene) && c < Width(scene)
    ensures Get(Resolved(math, scene, policy, fragments), r, c) == CellColor(math, scene, policy, fragments, r, c)
  {
    OffsetSplits(r, c, Width(scene));
  }
}
