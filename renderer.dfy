/** `Renderer` (Renderer.h, Renderer.cpp): the object that owns the per-render maps and the frame
    buffer, and runs the pipeline `prepareMatrices`, `processVertices`, `rasterize`,
    `fragmentShading` for `renderForDisplay`. Each method is proved against the functions of
    modules Scenes and Raster; the lemmas here put the passes together. */
module Renderers {
  import opened Matrices
  import opened MatrixObjects
  import opened MatrixOperators
  import opened MeshTypes
  import opened MeshNormals
  import opened Utils
  import opened Images
  import opened Scenes
  import opened Raster

  // ---------------------------------------------------------------------
  // Maps filled key by key

  /** The entries of `full` at the given keys. */
  ghost function Restrict<K, V>(full: map<K, V>, keys: set<K>): map<K, V> {
    map k | k in full && k in keys :: full[k]
  }

  /** Writing the full map's value at one more key restricts the full map to one more key. */
  lemma RestrictAdd<K, V>(before: map<K, V>, full: map<K, V>, keys: set<K>, key: K)
    requires key in full
    ensures before + Restrict(full, keys + {key}) == (before + Restrict(full, keys))[key := full[key]]
  {
  }

  /** Writing no key changes nothing. */
  lemma RestrictNone<K, V>(before: map<K, V>, full: map<K, V>)
    ensures before + Restrict(full, {}) == before
  {
  }

  /** Writing every key of the full map writes the full map. */
  lemma RestrictAll<K, V>(full: map<K, V>, keys: set<K>)
    requires full.Keys <= keys
    ensures Restrict(full, keys) == full
  {
  }

  /** A union whose left side has no key outside the right side is the right side. */
  lemma UnionCovered<K, V>(before: map<K, V>, full: map<K, V>)
    requires before.Keys <= full.Keys
    ensures before + full == full
  {
  }

  // ---------------------------------------------------------------------
  // processVertices, in loop order

  /** (o, v) is a position of the nested loops over objects and their vertices: within object o,
      or just past the last object. */
  predicate VertexStep(scene: Scene, o: int, v: int) {
    (0 <= o < |scene.objects| && 0 <= v <= |scene.objects[o].mesh.vertices|) || (o == |scene.objects| && v == 0)
  }

  /** (o, j) is a position of the nested loops over objects and their face lists. */
  predicate FaceStep(scene: Scene, o: int, j: int) {
    (0 <= o < |scene.objects| && 0 <= j <= |scene.objects[o].mesh.faces|) || (o == |scene.objects| && j == 0)
  }

  /** The vertices visited before loop position (o, v). */
  predicate VertexBefore(k: VertexKey, o: int, v: int) {
    k.0 < o || (k.0 == o && k.1 < v)
  }

  /** The faces visited before loop position (o, j). */
  predicate FaceBefore(scene: Scene, k: FaceKey, o: int, j: int)
    requires FaceStep(scene, o, j)
  {
    k.0 < o || (k.0 == o && o < |scene.objects| && k.1 in scene.objects[o].mesh.faces[..j])
  }

  /** The entries of `full` that the vertex loop writes before loop position (o, v), written in
      the loop's order. */
  ghost function VerticesInOrder<V>(scene: Scene, full: map<VertexKey, V>, o: int, v: int): map<VertexKey, V>
    requires VertexKeys(scene) <= full.Keys && VertexStep(scene, o, v)
    decreases o, v
  {
    if v > 0 then
      assert IsVertexKey(scene, (o, v - 1));
      VerticesInOrder(scene, full, o, v - 1)[(o, v - 1) := full[(o, v - 1)]]
    else if o == 0 then map[]
    else VerticesInOrder(scene, full, o - 1, |scene.objects[o - 1].mesh.vertices|)
  }

  /** The entries of `full` that the face loop writes before loop position (o, j), written in the
      loop's order; a face listed twice is written twice. */
  ghost function FacesInOrder<V>(scene: Scene, full: map<FaceKey, V>, o: int, j: int): map<FaceKey, V>
    requires FaceStep(scene, o, j)
    decreases o, j
  {
    if j > 0 then
      var key := (o, scene.objects[o].mesh.faces[j - 1]);
      if key in full then FacesInOrder(scene, full, o, j - 1)[key := full[key]] else FacesInOrder(scene, full, o, j - 1)
    else if o == 0 then map[]
    else FacesInOrder(scene, full, o - 1, |scene.objects[o - 1].mesh.faces|)
  }

  /** Every face list of the scene names faces of its arena. */
  predicate FaceListsIn(scene: Scene) {
    forall o, j | 0 <= o < |scene.objects| && 0 <= j < |scene.objects[o].mesh.faces| ::
      0 <= scene.objects[o].mesh.faces[j] < |scene.objects[o].mesh.faceArena|
  }

  /** Surfaces ready for rendering have their face lists in their arenas. */
  lemma ReadyFaceLists(scene: Scene)
    requires ObjectsReady(scene.objects)
    ensures FaceListsIn(scene)
  {
    forall o, j | 0 <= o < |scene.objects| && 0 <= j < |scene.objects[o].mesh.faces|
      ensures 0 <= scene.objects[o].mesh.faces[j] < |scene.objects[o].mesh.faceArena|
    {
      assert MeshReady(scene.objects[o].mesh);
    }
  }

  /** The vertex loop writes exactly the vertices before (o, v), each with its entry of `full`. */
  lemma {:induction false} VerticesInOrderSpec<V>(scene: Scene, full: map<VertexKey, V>, o: int, v: int)
    requires VertexKeys(scene) <= full.Keys && VertexStep(scene, o, v)
    ensures forall k :: k in VerticesInOrder(scene, full, o, v) <==> IsVertexKey(scene, k) && VertexBefore(k, o, v)
    ensures forall k | k in VerticesInOrder(scene, full, o, v) :: VerticesInOrder(scene, full, o, v)[k] == full[k]
    decreases o, v
  {
    if v > 0 {
      VerticesInOrderSpec(scene, full, o, v - 1);
    } else if o > 0 {
      VerticesInOrderSpec(scene, full, o - 1, |scene.objects[o - 1].mesh.vertices|);
    }
  }

  /** The face loop writes exactly the listed faces before (o, j), each with its entry of `full`. */
  lemma FacesInOrderSpec<V>(scene: Scene, full: map<FaceKey, V>, o: int, j: int)
    requires FaceListsIn(scene) && FaceKeys(scene) <= full.Keys && FaceStep(scene, o, j)
    ensures forall k :: k in FacesInOrder(scene, full, o, j) <==> IsFaceKey(scene, k) && FaceBefore(scene, k, o, j)
    ensures forall k | k in FacesInOrder(scene, full, o, j) :: FacesInOrder(scene, full, o, j)[k] == full[k]
  {
    FacesInOrderKeys(scene, full, o, j);
    FacesInOrderValues(scene, full, o, j);
  }

  /** The face loop writes exactly the listed faces before (o, j). */
  lemma {:induction false} FacesInOrderKeys<V>(scene: Scene, full: map<FaceKey, V>, o: int, j: int)
    requires FaceListsIn(scene) && FaceKeys(scene) <= full.Keys && FaceStep(scene, o, j)
    ensures forall k :: k in FacesInOrder(scene, full, o, j) <==> IsFaceKey(scene, k) && FaceBefore(scene, k, o, j)
    decreases o, j
  {
    if j > 0 {
      FacesInOrderKeys(scene, full, o, j - 1);
      var key := (o, scene.objects[o].mesh.faces[j - 1]);
      assert IsFaceKey(scene, key);
      FaceBeforeStep(scene, o, j);
    } else if o > 0 {
      FacesInOrderKeys(scene, full, o - 1, |scene.objects[o - 1].mesh.faces|);
      FaceBeforeNext(scene, o);
    }
  }

  /** Every entry the face loop writes is the entry of `full`. */
  lemma {:induction false} FacesInOrderValues<V>(scene: Scene, full: map<FaceKey, V>, o: int, j: int)
    requires FaceStep(scene, o, j)
    ensures forall k | k in FacesInOrder(scene, full, o, j) :: k in full && FacesInOrder(scene, full, o, j)[k] == full[k]
    decreases o, j
  {
    if j > 0 {
      FacesInOrderValues(scene, full, o, j - 1);
    } else if o > 0 {
      FacesInOrderValues(scene, full, o - 1, |scene.objects[o - 1].mesh.faces|);
    }
  }

  /** One more step of the face loop within object o adds its face to those visited. */
  lemma FaceBeforeStep(scene: Scene, o: int, j: int)
    requires FaceStep(scene, o, j) && j > 0
    ensures forall k :: FaceBefore(scene, k, o, j) <==> FaceBefore(scene, k, o, j - 1) || k == (o, scene.objects[o].mesh.faces[j - 1])
  {
    var faces := scene.objects[o].mesh.faces;
    assert faces[..j] == faces[..j - 1] + [faces[j - 1]];
  }

  /** The listed faces visited before object o are those visited by the end of object o - 1. */
  lemma FaceBeforeNext(scene: Scene, o: int)
    requires FaceStep(scene, o, 0) && o > 0
    ensures forall k | IsFaceKey(scene, k) :: FaceBefore(scene, k, o, 0) <==> FaceBefore(scene, k, o - 1, |scene.objects[o - 1].mesh.faces|)
  {
    var faces := scene.objects[o - 1].mesh.faces;
    assert faces[..|faces|] == faces;
  }

  /** After the last object the vertex loop has written every entry of a map over the vertices. */
  lemma VerticesAllInOrder<V>(scene: Scene, full: map<VertexKey, V>)
    requires full.Keys == VertexKeys(scene)
    ensures VerticesInOrder(scene, full, |scene.objects|, 0) == full
  {
    VerticesInOrderSpec(scene, full, |scene.objects|, 0);
  }

  /** After the last object the face loop has written every entry of a map over the listed faces. */
  lemma FacesAllInOrder<V>(scene: Scene, full: map<FaceKey, V>)
    requires ObjectsReady(scene.objects) && full.Keys == FaceKeys(scene)
    ensures FacesInOrder(scene, full, |scene.objects|, 0) == full
  {
    ReadyFaceLists(scene);
    FacesInOrderSpec(scene, full, |scene.objects|, 0);
  }

  /** Writing one entry after a union writes it into the union's right side. */
  lemma UpdateUnion<K, V>(before: map<K, V>, written: map<K, V>, key: K, value: V)
    ensures (before + written)[key := value] == before + written[key := value]
  {
  }

  /** `positions` holds every vertex's position transformed by m. */
  ghost predicate PositionsOf(scene: Scene, m: Mat<real>, positions: map<VertexKey, Mat<real>>)
    requires ObjectsReady(scene.objects) && IsMatrix4(m)
  {
    forall k {:trigger VertexOf(scene, k)} | IsVertexKey(scene, k) ::
      k in positions && positions[k] == Apply(m, Lift(VertexOf(scene, k).position))
  }

  /** `colors` holds every vertex's shaded colour. */
  ghost predicate ColorsOf(math: Math, scene: Scene, colors: map<VertexKey, Mat<real>>)
    requires ObjectsReady(scene.objects) && LightsReady(scene.lightSources) && IsVector3(scene.mainCamera.eyePosition)
  {
    forall k {:trigger VertexColor(math, scene, k)} | IsVertexKey(scene, k) ::
      k in colors && colors[k] == VertexColor(math, scene, k)
  }

  /** `colors` holds every listed face's shaded colour. */
  ghost predicate FaceColorsOf(math: Math, scene: Scene, colors: map<FaceKey, Mat<real>>)
    requires ObjectsReady(scene.objects) && LightsReady(scene.lightSources) && IsVector3(scene.mainCamera.eyePosition)
  {
    forall k {:trigger FaceColor(math, scene, k)} | IsFaceKey(scene, k) ::
      k in colors && colors[k] == FaceColor(math, scene, k)
  }

  /** The processed map holds every vertex transformed by m, the colour maps every vertex and every
      listed face shaded. */
  lemma MapsOf(math: Math, scene: Scene, m: Mat<real>)
    requires ObjectsReady(scene.objects) && LightsReady(scene.lightSources) && IsVector3(scene.mainCamera.eyePosition)
    requires IsMatrix4(m)
    ensures PositionsOf(scene, m, ProcessedMap(scene, m))
    ensures ColorsOf(math, scene, VertexColorMap(math, scene))
    ensures FaceColorsOf(math, scene, FaceColorMap(math, scene))
  {
  }

  // ---------------------------------------------------------------------
  // The homogeneous divide

  /** Every processed position is a 4-vector whose fourth coordinate can be divided by. */
  predicate Divisible(processed: map<VertexKey, Mat<real>>) {
    forall k | k in processed :: IsVector4(processed[k]) && processed[k].data[3] != 0.0
  }

  /** The first loop of `rasterize`: every processed position divided by its fourth coordinate. */
  function Divided(processed: map<VertexKey, Mat<real>>): (r: map<VertexKey, Mat<real>>)
    requires Divisible(processed)
    ensures r.Keys == processed.Keys && forall k | k in r :: IsVector3(r[k])
  {
    map k | k in processed :: HomoDivide(processed[k])
  }

  /** `divided` has the keys of `processed` and holds each processed position divided. */
  ghost predicate DividedOf(processed: map<VertexKey, Mat<real>>, divided: map<VertexKey, Mat<real>>)
    requires Divisible(processed)
  {
    divided.Keys == processed.Keys
    && forall k {:trigger HomoDivide(processed[k])} | k in processed :: divided[k] == HomoDivide(processed[k])
  }

  /** The divided map holds each processed position divided. */
  lemma DividedAt(processed: map<VertexKey, Mat<real>>)
    requires Divisible(processed)
    ensures DividedOf(processed, Divided(processed))
  {
  }

  // ---------------------------------------------------------------------
  // What a render needs, and what it computes

  /** The scene can be rendered: the camera, surfaces and lights are well formed, no vertex lies in
      the plane of the eye (see `CompositeDepth`), and every projected face is either clipped or has
      a nonzero area on screen. */
  ghost predicate SceneReady(scene: Scene, math: Math) {
    CameraReady(scene.mainCamera, math) && ObjectsReady(scene.objects) && LightsReady(scene.lightSources)
    && Divisible(ProcessedMap(scene, Composite(scene.mainCamera, math)))
    && var divided := Divided(ProcessedMap(scene, Composite(scene.mainCamera, math)));
       DividedReady(scene, divided)
       && forall o, j | 0 <= o < |scene.objects| && 0 <= j < |scene.objects[o].mesh.faces| ::
            FaceDrawable(scene, divided, o, j)
  }

  /** The maps `rasterize` reads in a render under the given policy: the divided positions of every
      vertex; the vertex colours under Gouraud shading and the face colours under flat shading, each
      empty otherwise. */
  ghost function RenderCaches(scene: Scene, math: Math, policy: int): (caches: Caches)
    requires SceneReady(scene, math)
    ensures CachesReady(scene, policy, caches)
  {
    Caches(Divided(ProcessedMap(scene, Composite(scene.mainCamera, math))),
           if policy == GOURAUD_SHADING then VertexColorMap(math, scene) else map[],
           if policy == FLAT_SHADING then FaceColorMap(math, scene) else map[])
  }

  /** The fragments and depths a render leaves: every candidate of the scene met by the depth test,
      starting from empty maps. */
  ghost function Rendered(scene: Scene, math: Math, policy: int): Buffers
    requires SceneReady(scene, math)
  {
    DepthFold(NoBuffers, SceneCandidates(math, scene, policy, RenderCaches(scene, math, policy), |scene.objects|))
  }

  /** After a render every stored fragment sits at its pixel's cell and is ready for its colour, and
      the two maps have the same pixels. */
  lemma RenderedPlaced(scene: Scene, math: Math, policy: int)
    requires SceneReady(scene, math)
    ensures Rendered(scene, math, policy).fragments.Keys == Rendered(scene, math, policy).zBuffer.Keys
    ensures FragmentsPlaced(Rendered(scene, math, policy).fragments, Height(scene), policy)
  {
    var caches := RenderCaches(scene, math, policy);
    ScenePlaced(math, scene, policy, caches, |scene.objects|);
    DepthFoldPlaced(SceneCandidates(math, scene, policy, caches, |scene.objects|), Width(scene), Height(scene), policy);
  }

  /** The depth test of a render, pixel by pixel: a pixel has a fragment exactly when some face
      covers it; its depth is the greatest depth offered there, and its fragment is that of the last
      candidate offered at that depth, so a nearer surface (greater depth after the projection)
      hides a farther one whatever order they are drawn in. */
  lemma RenderedPixel(scene: Scene, math: Math, policy: int, p: Pixel)
    requires SceneReady(scene, math)
    ensures Settled(SceneCandidates(math, scene, policy, RenderCaches(scene, math, policy), |scene.objects|),
                    Rendered(scene, math, policy), p)
  {
    DepthFoldSettles(SceneCandidates(math, scene, policy, RenderCaches(scene, math, policy), |scene.objects|), p);
  }

  /** What `processVertices` leaves, from cleared colour maps, is what `rasterize` reads in a render,
      whatever divided positions were stored before. */
  lemma ProcessedCaches(scene: Scene, math: Math, policy: int, divided0: map<VertexKey, Mat<real>>,
                        vertexColors: map<VertexKey, Mat<real>>, faceColors: map<FaceKey, Mat<real>>)
    requires SceneReady(scene, math) && divided0.Keys <= VertexKeys(scene)
    requires vertexColors == if policy == GOURAUD_SHADING then map[] + VertexColorMap(math, scene) else map[]
    requires faceColors == if policy == FLAT_SHADING then map[] + FaceColorMap(math, scene) else map[]
    ensures Divisible(ProcessedMap(scene, Composite(scene.mainCamera, math)))
    ensures Caches(divided0 + Divided(ProcessedMap(scene, Composite(scene.mainCamera, math))), vertexColors, faceColors)
            == RenderCaches(scene, math, policy)
    ensures CachesReady(scene, policy, RenderCaches(scene, math, policy))
  {
    UnionCovered(map[], VertexColorMap(math, scene));
    UnionCovered(map[], FaceColorMap(math, scene));
    UnionCovered(divided0, Divided(ProcessedMap(scene, Composite(scene.mainCamera, math))));
  }

  // ---------------------------------------------------------------------
  // The renderer object

  class Renderer {
    /** The scene, loaded once by the constructor and not changed by rendering. */
    const scene: Scene
    /** Square root, power, tangent and pi, supplied by the caller. */
    const math: Math
    /** The `Image32f` the fragments are written to. */
    const frameBuffer: Matrix<Mat<real>>
    var shadingPolicy: int
    var m: Mat<real>
    var processedVertexPositions: map<VertexKey, Mat<real>>
    var dividedVertexPositions: map<VertexKey, Mat<real>>
    var vertexColors: map<VertexKey, Mat<real>>
    var faceColors: map<FaceKey, Mat<real>>
    var fragments: map<Pixel, Fragment>
    var zBuffer: map<Pixel, real>

    /** The frame buffer is a dynamic-size image, and the position maps hold vertices of the scene
        only. */
    ghost predicate Valid()
      reads this, frameBuffer
    {
      frameBuffer.Valid() && frameBuffer.staticRows == 0 && frameBuffer.staticCols == 0
      && processedVertexPositions.Keys <= VertexKeys(scene) && dividedVertexPositions.Keys <= VertexKeys(scene)
    }

    /** `Renderer(inputSceneFileName)`, with the scene it reads given as a value: flat shading, an
        empty frame buffer and empty maps. */
    constructor (scene: Scene, math: Math)
      ensures Valid() && fresh(frameBuffer)
      ensures this.scene == scene && this.math == math && shadingPolicy == FLAT_SHADING
      ensures frameBuffer.Value() == Mat(0, 0, 0, 0, [])
      ensures processedVertexPositions == map[] && dividedVertexPositions == map[]
      ensures vertexColors == map[] && faceColors == map[] && fragments == map[] && zBuffer == map[]
    {
      this.scene := scene;
      this.math := math;
      shadingPolicy := FLAT_SHADING;
      frameBuffer := new Matrix(Mat(0, 0, 0, 0, []));
      m := Filled(4, 4, 0.0);
      processedVertexPositions, dividedVertexPositions := map[], map[];
      vertexColors, faceColors := map[], map[];
      fragments, zBuffer := map[], map[];
    }

    method GetShadingPolicy() returns (policy: int)
      ensures policy == shadingPolicy
    {
      policy := shadingPolicy;
    }

    /** Any value is stored; values other than the three policies render as flat shading. */
    method SetShadingPolicy(policy: int)
      modifies this`shadingPolicy
      ensures shadingPolicy == policy
    {
      shadingPolicy := policy;
    }

    /** `prepareMatrices`: the composite model-to-screen matrix. */
    method PrepareMatrices()
      requires CameraReady(scene.mainCamera, math)
      modifies this`m
      ensures m == Composite(scene.mainCamera, math)
    {
      var camera := scene.mainCamera;
      var mCam := CameraMatrix(camera);
      var mPer := PerspectiveOf(camera);
      var mVp := Viewport(camera.imageSize.0, camera.imageSize.1);
      var vpPer := Multiply(mVp, mPer);
      var product := Multiply(vpPer.value, mCam);
      m := product.value;
      assert m == Product(Product(mVp, PerspectiveMatrix(camera, math)).value, ViewMatrix(camera, math)).value;
    }

    /** The second part of `prepareMatrices`: the frustum bounds from the field of view, and `mPer`. */
    method PerspectiveOf(camera: Camera) returns (mPer: Mat<real>)
      requires CameraReady(camera, math)
      ensures mPer == PerspectiveMatrix(camera, math)
    {
      var n, f := camera.depths.0, camera.depths.1;
      var t := FrustumTop(camera, math);
      var r := FrustumRight(camera, math);
      var b, l := -t, -r;
      mPer := Perspective(n, f, b, t, l, r);
    }

    /** The first part of `prepareMatrices`: the camera basis, and `mCam`. */
    method CameraMatrix(camera: Camera) returns (mCam: Mat<real>)
      requires IsVector3(camera.eyePosition) && IsVector3(camera.lookAtPosition) && IsVector3(camera.upDirection)
      ensures mCam == ViewMatrix(camera, math)
    {
      var lookDirection := Elementwise(camera.lookAtPosition, camera.eyePosition, Minus);
      var u := Normalized(math, Cross(lookDirection, camera.upDirection).value);
      var v := Normalized(math, Cross(u, lookDirection).value);
      var w := Normalized(math, Cross(u, v).value);
      assert (u, v, w) == Basis(camera, math);
      var translate := MakeTranslateMatrix(camera.eyePosition);
      var product := Multiply(ChangeCoordSys(u, v, w), translate);
      mCam := product.value;
    }

    /** `processVertices`: every vertex transformed by m; under Gouraud shading every vertex
        coloured, under flat shading every listed face coloured; entries of other keys kept. */
    method ProcessVertices()
      requires ObjectsReady(scene.objects) && LightsReady(scene.lightSources) && IsVector3(scene.mainCamera.eyePosition)
      requires IsMatrix4(m)
      modifies this`processedVertexPositions, this`vertexColors, this`faceColors
      ensures processedVertexPositions == old(processedVertexPositions) + ProcessedMap(scene, m)
      ensures vertexColors == if shadingPolicy == GOURAUD_SHADING then old(vertexColors) + VertexColorMap(math, scene)
                              else old(vertexColors)
      ensures faceColors == if shadingPolicy == FLAT_SHADING then old(faceColors) + FaceColorMap(math, scene)
                            else old(faceColors)
    {
      MapsOf(math, scene, m);
      ProcessObjects(ProcessedMap(scene, m), VertexColorMap(math, scene), FaceColorMap(math, scene));
    }

    /** The loop of `processVertices` over the objects, against maps `positions`, `colors` and
        `faceColorsAll` that hold every vertex's transformed position and colour and every listed
        face's colour. */
    method ProcessObjects(ghost positions: map<VertexKey, Mat<real>>, ghost colors: map<VertexKey, Mat<real>>,
                          ghost faceColorsAll: map<FaceKey, Mat<real>>)
      requires ObjectsReady(scene.objects) && LightsReady(scene.lightSources) && IsVector3(scene.mainCamera.eyePosition)
      requires IsMatrix4(m)
      requires positions.Keys == VertexKeys(scene) && colors.Keys == VertexKeys(scene) && faceColorsAll.Keys == FaceKeys(scene)
      requires PositionsOf(scene, m, positions) && ColorsOf(math, scene, colors) && FaceColorsOf(math, scene, faceColorsAll)
      modifies this`processedVertexPositions, this`vertexColors, this`faceColors
      ensures processedVertexPositions == old(processedVertexPositions) + positions
      ensures vertexColors == if shadingPolicy == GOURAUD_SHADING then old(vertexColors) + colors else old(vertexColors)
      ensures faceColors == if shadingPolicy == FLAT_SHADING then old(faceColors) + faceColorsAll else old(faceColors)
    {
      ObjectLoop(positions, colors, faceColorsAll);
      VerticesAllInOrder(scene, positions);
      VerticesAllInOrder(scene, colors);
      FacesAllInOrder(scene, faceColorsAll);
    }

    /** What the object loop of `processVertices` works against: a ready scene, a 4x4 m, and maps
        `positions`, `colors` and `faceColorsAll` that hold every vertex's transformed position and
        colour and every listed face's colour. */
    ghost predicate LoopInputs(positions: map<VertexKey, Mat<real>>, colors: map<VertexKey, Mat<real>>,
                               faceColorsAll: map<FaceKey, Mat<real>>)
      reads this
    {
      && ObjectsReady(scene.objects) && LightsReady(scene.lightSources) && IsVector3(scene.mainCamera.eyePosition)
      && IsMatrix4(m)
      && VertexKeys(scene) <= positions.Keys && VertexKeys(scene) <= colors.Keys && FaceKeys(scene) <= faceColorsAll.Keys
      && PositionsOf(scene, m, positions) && ColorsOf(math, scene, colors) && FaceColorsOf(math, scene, faceColorsAll)
    }

    /** The object loop's state before object o: the entries of the objects before o written over
        the maps the loop started from, the colours only under the policy that keeps them. */
    ghost predicate ObjectsDone(o: int, processed0: map<VertexKey, Mat<real>>, vertexColors0: map<VertexKey, Mat<real>>,
                                faceColors0: map<FaceKey, Mat<real>>, positions: map<VertexKey, Mat<real>>,
                                colors: map<VertexKey, Mat<real>>, faceColorsAll: map<FaceKey, Mat<real>>)
      reads this
      requires LoopInputs(positions, colors, faceColorsAll) && 0 <= o <= |scene.objects|
    {
      && processedVertexPositions == processed0 + VerticesInOrder(scene, positions, o, 0)
      && vertexColors == (if shadingPolicy == GOURAUD_SHADING then vertexColors0 + VerticesInOrder(scene, colors, o, 0)
                          else vertexColors0)
      && faceColors == (if shadingPolicy == FLAT_SHADING then faceColors0 + FacesInOrder(scene, faceColorsAll, o, 0)
                        else faceColors0)
    }

    /** The object loop itself, its result stated in the loop's own order. */
    method ObjectLoop(ghost positions: map<VertexKey, Mat<real>>, ghost colors: map<VertexKey, Mat<real>>,
                      ghost faceColorsAll: map<FaceKey, Mat<real>>)
      requires LoopInputs(positions, colors, faceColorsAll)
      modifies this`processedVertexPositions, this`vertexColors, this`faceColors
      ensures ObjectsDone(|scene.objects|, old(processedVertexPositions), old(vertexColors), old(faceColors),
                          positions, colors, faceColorsAll)
    {
      ghost var processed0, vertexColors0, faceColors0 := processedVertexPositions, vertexColors, faceColors;
      assert processed0 + map[] == processed0 && vertexColors0 + map[] == vertexColors0 && faceColors0 + map[] == faceColors0;
      for o := 0 to |scene.objects|
        invariant ObjectsDone(o, processed0, vertexColors0, faceColors0, positions, colors, faceColorsAll)
      {
        ProcessObject(o, processed0, vertexColors0, faceColors0, positions, colors, faceColorsAll);
      }
    }

    /** One step of the object loop of `processVertices`: the vertices of object o transformed and,
        under flat shading, its faces coloured. */
    method ProcessObject(o: int, ghost processed0: map<VertexKey, Mat<real>>, ghost vertexColors0: map<VertexKey, Mat<real>>,
                         ghost faceColors0: map<FaceKey, Mat<real>>, ghost positions: map<VertexKey, Mat<real>>,
                         ghost colors: map<VertexKey, Mat<real>>, ghost faceColorsAll: map<FaceKey, Mat<real>>)
      requires LoopInputs(positions, colors, faceColorsAll) && 0 <= o < |scene.objects|
      requires ObjectsDone(o, processed0, vertexColors0, faceColors0, positions, colors, faceColorsAll)
      modifies this`processedVertexPositions, this`vertexColors, this`faceColors
      ensures ObjectsDone(o + 1, processed0, vertexColors0, faceColors0, positions, colors, faceColorsAll)
    {
      ProcessSurface(o, processed0, vertexColors0, positions, colors);
      if shadingPolicy == FLAT_SHADING {
        ColorSurfaceFaces(o, faceColors0, faceColorsAll);
      }
    }

    /** The vertex loop of `processVertices` for object o, against maps `positions` and `colors`
        that hold every vertex's transformed position and colour. */
    method ProcessSurface(o: int, ghost processed0: map<VertexKey, Mat<real>>, ghost vertexColors0: map<VertexKey, Mat<real>>,
                          ghost positions: map<VertexKey, Mat<real>>, ghost colors: map<VertexKey, Mat<real>>)
      requires ObjectsReady(scene.objects) && LightsReady(scene.lightSources) && IsVector3(scene.mainCamera.eyePosition)
      requires IsMatrix4(m) && 0 <= o < |scene.objects|
      requires VertexKeys(scene) <= positions.Keys && VertexKeys(scene) <= colors.Keys
      requires PositionsOf(scene, m, positions) && ColorsOf(math, scene, colors)
      requires processedVertexPositions == processed0 + VerticesInOrder(scene, positions, o, 0)
      requires vertexColors == if shadingPolicy == GOURAUD_SHADING then vertexColors0 + VerticesInOrder(scene, colors, o, 0)
                               else vertexColors0
      modifies this`processedVertexPositions, this`vertexColors
      ensures processedVertexPositions == processed0 + VerticesInOrder(scene, positions, o + 1, 0)
      ensures vertexColors == if shadingPolicy == GOURAUD_SHADING then vertexColors0 + VerticesInOrder(scene, colors, o + 1, 0)
                              else vertexColors0
    {
      for v := 0 to |scene.objects[o].mesh.vertices|
        invariant processedVertexPositions == processed0 + VerticesInOrder(scene, positions, o, v)
        invariant vertexColors == if shadingPolicy == GOURAUD_SHADING then vertexColors0 + VerticesInOrder(scene, colors, o, v)
                                  else vertexColors0
      {
        ProcessVertex(o, v, processed0, vertexColors0, positions, colors);
      }
    }

    /** One step of the vertex loop of `processVertices`: vertex v of object o transformed, and
        under Gouraud shading coloured. */
    method ProcessVertex(o: int, v: int, ghost processed0: map<VertexKey, Mat<real>>, ghost vertexColors0: map<VertexKey, Mat<real>>,
                         ghost positions: map<VertexKey, Mat<real>>, ghost colors: map<VertexKey, Mat<real>>)
      requires ObjectsReady(scene.objects) && LightsReady(scene.lightSources) && IsVector3(scene.mainCamera.eyePosition)
      requires IsMatrix4(m) && 0 <= o < |scene.objects| && 0 <= v < |scene.objects[o].mesh.vertices|
      requires VertexKeys(scene) <= positions.Keys && VertexKeys(scene) <= colors.Keys
      requires PositionsOf(scene, m, positions) && ColorsOf(math, scene, colors)
      requires processedVertexPositions == processed0 + VerticesInOrder(scene, positions, o, v)
      requires vertexColors == if shadingPolicy == GOURAUD_SHADING then vertexColors0 + VerticesInOrder(scene, colors, o, v)
                               else vertexColors0
      modifies this`processedVertexPositions, this`vertexColors
      ensures processedVertexPositions == processed0 + VerticesInOrder(scene, positions, o, v + 1)
      ensures vertexColors == if shadingPolicy == GOURAUD_SHADING then vertexColors0 + VerticesInOrder(scene, colors, o, v + 1)
                              else vertexColors0
    {
      var surface := scene.objects[o];
      var vertex := surface.mesh.vertices[v];
      assert IsVertexKey(scene, (o, v)) && VertexOf(scene, (o, v)) == vertex;
      var processed := Multiply(m, Lift(vertex.position));
      ApplyIsProduct(m, Lift(vertex.position));
      assert processed.value == positions[(o, v)];
      UpdateUnion(processed0, VerticesInOrder(scene, positions, o, v), (o, v), processed.value);
      processedVertexPositions := processedVertexPositions[(o, v) := processed.value];
      if shadingPolicy == GOURAUD_SHADING {
        var color := Shade(math, scene.mainCamera.eyePosition, vertex.position, vertex.normal.value,
                           scene.lightSources, surface.colorSettings);
        assert color == VertexColor(math, scene, (o, v)) == colors[(o, v)];
        UpdateUnion(vertexColors0, VerticesInOrder(scene, colors, o, v), (o, v), color);
        vertexColors := vertexColors[(o, v) := color];
      }
    }

    /** The face loop of `processVertices` for object o, run under flat shading, against a map
        `colors` that holds every listed face's colour. */
    method ColorSurfaceFaces(o: int, ghost faceColors0: map<FaceKey, Mat<real>>, ghost colors: map<FaceKey, Mat<real>>)
      requires ObjectsReady(scene.objects) && LightsReady(scene.lightSources) && IsVector3(scene.mainCamera.eyePosition)
      requires 0 <= o < |scene.objects|
      requires FaceKeys(scene) <= colors.Keys && FaceColorsOf(math, scene, colors)
      requires faceColors == faceColors0 + FacesInOrder(scene, colors, o, 0)
      modifies this`faceColors
      ensures faceColors == faceColors0 + FacesInOrder(scene, colors, o + 1, 0)
    {
      for j := 0 to |scene.objects[o].mesh.faces|
        invariant faceColors == faceColors0 + FacesInOrder(scene, colors, o, j)
      {
        ColorFace(o, j, faceColors0, colors);
      }
    }

    /** One step of the face loop of `processVertices`: face j of the list of object o coloured. */
    method ColorFace(o: int, j: int, ghost faceColors0: map<FaceKey, Mat<real>>, ghost colors: map<FaceKey, Mat<real>>)
      requires ObjectsReady(scene.objects) && LightsReady(scene.lightSources) && IsVector3(scene.mainCamera.eyePosition)
      requires 0 <= o < |scene.objects| && 0 <= j < |scene.objects[o].mesh.faces|
      requires FaceKeys(scene) <= colors.Keys && FaceColorsOf(math, scene, colors)
      requires faceColors == faceColors0 + FacesInOrder(scene, colors, o, j)
      modifies this`faceColors
      ensures faceColors == faceColors0 + FacesInOrder(scene, colors, o, j + 1)
    {
      var surface := scene.objects[o];
      var key := (o, surface.mesh.faces[j]);
      var face := surface.mesh.faceArena[key.1];
      assert IsFaceKey(scene, key) && FaceOf(scene, key) == face;
      var color := Shade(math, scene.mainCamera.eyePosition, face.position.value, face.normal.value,
                         scene.lightSources, surface.colorSettings);
      assert color == FaceColor(math, scene, key) == colors[key];
      UpdateUnion(faceColors0, FacesInOrder(scene, colors, o, j), key, color);
      faceColors := faceColors[key := color];
    }

    /** `rasterize`: every processed position divided into `dividedVertexPositions`, then every face
        of every object met pixel by pixel by the depth test, in the loops' order. */
    method Rasterize()
      requires Divisible(processedVertexPositions)
      requires CachesReady(scene, shadingPolicy,
                           Caches(dividedVertexPositions + Divided(processedVertexPositions), vertexColors, faceColors))
      modifies this`dividedVertexPositions, this`fragments, this`zBuffer
      ensures dividedVertexPositions == old(dividedVertexPositions) + Divided(processedVertexPositions)
      ensures Buffers(fragments, zBuffer)
              == DepthFold(old(Buffers(fragments, zBuffer)),
                           SceneCandidates(math, scene, shadingPolicy, Caches(dividedVertexPositions, vertexColors, faceColors),
                                           |scene.objects|))
    {
      DividedAt(processedVertexPositions);
      DivideVertices(Divided(processedVertexPositions));
      var caches := Caches(dividedVertexPositions, vertexColors, faceColors);
      DrawScene(shadingPolicy, caches);
    }

    /** The first loop of `rasterize`: the homogeneous divide of every processed position, against a
        map `divided` that holds every divided position. */
    method DivideVertices(ghost divided: map<VertexKey, Mat<real>>)
      requires Divisible(processedVertexPositions) && DividedOf(processedVertexPositions, divided)
      modifies this`dividedVertexPositions
      ensures dividedVertexPositions == old(dividedVertexPositions) + divided
    {
      ghost var divided0 := dividedVertexPositions;
      var todo := processedVertexPositions.Keys;
      RestrictNone(divided0, divided);
      while todo != {}
        invariant todo <= processedVertexPositions.Keys
        invariant dividedVertexPositions == divided0 + Restrict(divided, processedVertexPositions.Keys - todo)
        decreases |todo|
      {
        var key :| key in todo;
        DivideVertex(key, divided0, todo, divided);
        todo := todo - {key};
      }
      RestrictAll(divided, processedVertexPositions.Keys - todo);
    }

    /** The body of the first loop of `rasterize`: one position divided. */
    method DivideVertex(key: VertexKey, ghost divided0: map<VertexKey, Mat<real>>, ghost todo: set<VertexKey>,
                        ghost divided: map<VertexKey, Mat<real>>)
      requires Divisible(processedVertexPositions) && DividedOf(processedVertexPositions, divided)
      requires key in todo && todo <= processedVertexPositions.Keys
      requires dividedVertexPositions == divided0 + Restrict(divided, processedVertexPositions.Keys - todo)
      modifies this`dividedVertexPositions
      ensures dividedVertexPositions == divided0 + Restrict(divided, processedVertexPositions.Keys - (todo - {key}))
    {
      var position := HomoDivide(processedVertexPositions[key]);
      assert processedVertexPositions.Keys - (todo - {key}) == (processedVertexPositions.Keys - todo) + {key};
      RestrictAdd(divided0, divided, processedVertexPositions.Keys - todo, key);
      dividedVertexPositions := dividedVertexPositions[key := position];
    }

    /** The second loop of `rasterize`: every face of every object, in order. */
    method DrawScene(policy: int, caches: Caches)
      requires CachesReady(scene, policy, caches)
      modifies this`fragments, this`zBuffer
      ensures Buffers(fragments, zBuffer)
              == DepthFold(old(Buffers(fragments, zBuffer)), SceneCandidates(math, scene, policy, caches, |scene.objects|))
    {
      ghost var b0 := Buffers(fragments, zBuffer);
      for o := 0 to |scene.objects|
        invariant Buffers(fragments, zBuffer) == DepthFold(b0, SceneCandidates(math, scene, policy, caches, o))
      {
        ghost var bo := Buffers(fragments, zBuffer);
        DrawSurface(policy, caches, o);
        DepthFoldConcat(b0, SceneCandidates(math, scene, policy, caches, o),
                        SurfaceCandidates(math, scene, policy, caches, o, |scene.objects[o].mesh.faces|));
      }
    }

    /** The faces of one object, in order. */
    method DrawSurface(policy: int, caches: Caches, o: int)
      requires CachesReady(scene, policy, caches) && 0 <= o < |scene.objects|
      modifies this`fragments, this`zBuffer
      ensures Buffers(fragments, zBuffer)
              == DepthFold(old(Buffers(fragments, zBuffer)),
                           SurfaceCandidates(math, scene, policy, caches, o, |scene.objects[o].mesh.faces|))
    {
      var faces := scene.objects[o].mesh.faces;
      var width, height := scene.mainCamera.imageSize.0, scene.mainCamera.imageSize.1;
      ghost var bo := Buffers(fragments, zBuffer);
      for j := 0 to |faces|
        invariant Buffers(fragments, zBuffer) == DepthFold(bo, SurfaceCandidates(math, scene, policy, caches, o, j))
      {
        var fv := ViewOf(scene, policy, caches, o, j);
        DrawFace(fv, policy, width, height);
        DepthFoldConcat(bo, SurfaceCandidates(math, scene, policy, caches, o, j),
                        FaceCandidates(math, fv, policy, width, height));
      }
    }

    /** The body of the face loop of `rasterize`: the bounding box, the clipping test, and the pixel
        loops. */
    method DrawFace(fv: FaceView, policy: int, width: int, height: int)
      requires ViewReady(fv)
      requires Skipped(BoundingBox(fv.v0, fv.v1, fv.v2), width, height) || NonDegenerate(fv.v0, fv.v1, fv.v2)
      modifies this`fragments, this`zBuffer
      ensures Buffers(fragments, zBuffer)
              == DepthFold(old(Buffers(fragments, zBuffer)), FaceCandidates(math, fv, policy, width, height))
    {
      var box := BoundingBox(fv.v0, fv.v1, fv.v2);
      if Skipped(box, width, height) {
        return;
      }
      ghost var bf := Buffers(fragments, zBuffer);
      for i := box.xMin to box.xMax
        invariant Buffers(fragments, zBuffer) == DepthFold(bf, BoxCandidates(math, fv, policy, height, box, i))
      {
        DrawColumn(fv, policy, height, i, box.yMin, box.yMax);
        DepthFoldConcat(bf, BoxCandidates(math, fv, policy, height, box, i),
                        ColumnCandidates(math, fv, policy, height, i, box.yMin, box.yMax));
      }
    }

    /** The inner pixel loop of `rasterize`: column `i` of the bounding box, rows `yMin` to `yMax`. */
    method DrawColumn(fv: FaceView, policy: int, height: int, i: int, yMin: int, yMax: int)
      requires ViewReady(fv) && NonDegenerate(fv.v0, fv.v1, fv.v2)
      requires yMin <= yMax
      modifies this`fragments, this`zBuffer
      ensures Buffers(fragments, zBuffer)
              == DepthFold(old(Buffers(fragments, zBuffer)), ColumnCandidates(math, fv, policy, height, i, yMin, yMax))
    {
      ghost var bc := Buffers(fragments, zBuffer);
      for j := yMin to yMax
        invariant Buffers(fragments, zBuffer) == DepthFold(bc, ColumnCandidates(math, fv, policy, height, i, yMin, j))
      {
        DrawPixel(fv, policy, height, i, j);
        DepthFoldConcat(bc, ColumnCandidates(math, fv, policy, height, i, yMin, j),
                        PixelCandidates(math, fv, policy, height, i, j));
      }
    }

    /** The body of the pixel loops: the barycentric coordinates, the inside test, the depth test, and
        the fragment the policy asks for. */
    method DrawPixel(fv: FaceView, policy: int, height: int, i: int, j: int)
      requires ViewReady(fv) && NonDegenerate(fv.v0, fv.v1, fv.v2)
      modifies this`fragments, this`zBuffer
      ensures Buffers(fragments, zBuffer)
              == DepthFold(old(Buffers(fragments, zBuffer)), PixelCandidates(math, fv, policy, height, i, j))
    {
      var baryCoord := BaryCoord(fv.v0, fv.v1, fv.v2, PixelPoint(i, j));
      var inside := InsideTest(baryCoord);
      if inside {
        var position := LinearInterpolate(fv.v0, fv.v1, fv.v2, baryCoord);
        var pixel := (i, j);
        ghost var candidate := Candidate(pixel, position.data[2], PixelFragment(math, fv, policy, height, i, j, baryCoord));
        assert PixelCandidates(math, fv, policy, height, i, j) == [candidate];
        DepthFoldSingle(Buffers(fragments, zBuffer), candidate);
        if pixel in zBuffer && zBuffer[pixel] > position.data[2] {
          return;
        }
        var fragment := Fragment(0, 0, Zero3, Zero3, Black(), Black(), Black(), None);
        fragment := fragment.(i := height - j, j := i);
        if policy == PHONG_SHADING {
          fragment := fragment.(position := LinearInterpolate(fv.p0, fv.p1, fv.p2, baryCoord),
                                normal := Normalized(math, LinearInterpolate(fv.n0, fv.n1, fv.n2, baryCoord)),
                                colorSettings := Some(fv.colorSettings));
        }
        if policy == FLAT_SHADING {
          fragment := fragment.(flatColor := fv.flat);
        }
        if policy == GOURAUD_SHADING {
          fragment := fragment.(gouraudColor := LinearInterpolate(fv.c0, fv.c1, fv.c2, baryCoord));
        }
        assert fragment == candidate.fragment;
        fragments := fragments[pixel := fragment];
        zBuffer := zBuffer[pixel := position.data[2]];
      } else {
        assert PixelCandidates(math, fv, policy, height, i, j) == [];
      }
    }

    /** `fragmentShading`: the frame buffer resized to the image and cleared, then every fragment's
        colour written at its cell. The write of a fragment outside the image throws, so the pass
        fails exactly when some fragment lies outside; otherwise the frame buffer is the resolved
        image. */
    method FragmentShading() returns (r: Result<()>)
      requires Valid() && Width(scene) > 0 && Height(scene) > 0
      requires IsVector3(scene.mainCamera.eyePosition) && LightsReady(scene.lightSources)
      requires FragmentsPlaced(fragments, Height(scene), shadingPolicy)
      modifies frameBuffer
      ensures Valid()
      ensures r.Ok? <==> AllInFrame(fragments, Width(scene), Height(scene))
      ensures r.Err? ==> r.error == OutOfRange
      ensures r.Ok? ==> frameBuffer.Value() == Resolved(math, scene, shadingPolicy, fragments)
    {
      var width, height := scene.mainCamera.imageSize.0, scene.mainCamera.imageSize.1;
      var resized := frameBuffer.Resize(height, width, Black());
      ClearImage(frameBuffer);
      ResolvedCells(math, scene, shadingPolicy, fragments);
      r := ShadeFragments(Resolved(math, scene, shadingPolicy, fragments).data);
      if r.Ok? {
        assert frameBuffer.data == Resolved(math, scene, shadingPolicy, fragments).data;
      }
    }

    /** The loop of `fragmentShading` over a cleared frame buffer: every fragment's colour written
        at its cell, until a write falls outside the image. `target` holds the colour each cell is
        to have. */
    method ShadeFragments(ghost target: seq<Mat<real>>) returns (r: Result<()>)
      requires Width(scene) > 0 && Height(scene) > 0
      requires IsVector3(scene.mainCamera.eyePosition) && LightsReady(scene.lightSources)
      requires FragmentsPlaced(fragments, Height(scene), shadingPolicy)
      requires frameBuffer.Valid() && frameBuffer.staticRows == 0 && frameBuffer.staticCols == 0
      requires frameBuffer.height == Height(scene) && frameBuffer.width == Width(scene)
      requires forall k | 0 <= k < Height(scene) * Width(scene) :: frameBuffer.data[k] == Black()
      requires TargetColors(target)
      modifies frameBuffer
      ensures frameBuffer.Valid() && frameBuffer.height == Height(scene) && frameBuffer.width == Width(scene)
      ensures r.Ok? <==> AllInFrame(fragments, Width(scene), Height(scene))
      ensures r.Err? ==> r.error == OutOfRange
      ensures r.Ok? ==> forall k | 0 <= k < Height(scene) * Width(scene) ::
                          frameBuffer.data[k] == if CellKey(k, Width(scene), Height(scene)) in fragments then target[k] else Black()
    {
      var todo := fragments.Keys;
      while todo != {}
        invariant todo <= fragments.Keys
        invariant frameBuffer.Valid() && frameBuffer.height == Height(scene) && frameBuffer.width == Width(scene)
        invariant forall p | p in fragments && p !in todo :: InFrame(fragments[p], Width(scene), Height(scene))
        invariant forall k | 0 <= k < Height(scene) * Width(scene) ::
                    frameBuffer.data[k] == if CellKey(k, Width(scene), Height(scene)) in fragments && CellKey(k, Width(scene), Height(scene)) !in todo
                                           then target[k] else Black()
        decreases |todo|
      {
        var p :| p in todo;
        var written := ShadeFragment(p, todo, target);
        if written.Err? {
          return Err(OutOfRange);
        }
        todo := todo - {p};
      }
      r := Ok(());
    }

    /** The body of the loop of `fragmentShading`: the colour of the fragment of pixel p, by the
        policy, written at the fragment's cell; the write fails exactly when the cell lies outside
        the image. `target` holds the colour each cell is to have. */
    method ShadeFragment(p: Pixel, ghost todo: set<Pixel>, ghost target: seq<Mat<real>>) returns (written: Result<()>)
      requires Width(scene) > 0 && Height(scene) > 0
      requires IsVector3(scene.mainCamera.eyePosition) && LightsReady(scene.lightSources)
      requires FragmentsPlaced(fragments, Height(scene), shadingPolicy)
      requires p in todo && todo <= fragments.Keys
      requires frameBuffer.Valid() && frameBuffer.height == Height(scene) && frameBuffer.width == Width(scene)
      requires TargetColors(target)
      requires forall k | 0 <= k < Height(scene) * Width(scene) ::
                 frameBuffer.data[k] == if CellKey(k, Width(scene), Height(scene)) in fragments && CellKey(k, Width(scene), Height(scene)) !in todo
                                        then target[k] else Black()
      modifies frameBuffer
      ensures frameBuffer.Valid() && frameBuffer.height == Height(scene) && frameBuffer.width == Width(scene)
      ensures written.Ok? <==> InFrame(fragments[p], Width(scene), Height(scene))
      ensures written.Ok? ==>
                forall k | 0 <= k < Height(scene) * Width(scene) ::
                  frameBuffer.data[k] == if CellKey(k, Width(scene), Height(scene)) in fragments && CellKey(k, Width(scene), Height(scene)) !in todo - {p}
                                         then target[k] else Black()
    {
      var width, height := scene.mainCamera.imageSize.0, scene.mainCamera.imageSize.1;
      var fragment := fragments[p];
      var color;
      if shadingPolicy == GOURAUD_SHADING {
        color := fragment.gouraudColor;
      } else if shadingPolicy == PHONG_SHADING {
        color := Shade(math, scene.mainCamera.eyePosition, fragment.position, fragment.normal,
                       scene.lightSources, fragment.colorSettings.value);
      } else {
        color := fragment.flatColor;
      }
      assert color == FragmentColor(math, scene.mainCamera.eyePosition, scene.lightSources, shadingPolicy, fragments[p]);
      ghost var before := frameBuffer.data;
      written := frameBuffer.Write(fragment.i, fragment.j, color);
      if written.Err? {
        return;
      }
      ghost var cell := Offset(fragment.i, fragment.j, height, width);
      assert (fragment.j, height - fragment.i) == p;
      assert frameBuffer.Value() == Update(old(frameBuffer.Value()), fragment.i, fragment.j, color).value;
      assert frameBuffer.data == before[cell := color];
      assert target[cell] == color;
      forall k | 0 <= k < height * width
        ensures frameBuffer.data[k] == if CellKey(k, width, height) in fragments && CellKey(k, width, height) !in todo - {p}
                                       then target[k] else Black()
      {
        CellOfKey(fragment.i, fragment.j, width, height, k);
        if k == cell {
          assert CellKey(k, width, height) == p;
        } else {
          assert CellKey(k, width, height) != p && frameBuffer.data[k] == before[k];
        }
      }
    }

    /** `target` holds, at the cell of every fragment inside the image, the fragment's colour. */
    ghost predicate TargetColors(target: seq<Mat<real>>)
      requires Width(scene) > 0 && Height(scene) > 0
      requires IsVector3(scene.mainCamera.eyePosition) && LightsReady(scene.lightSources)
      requires FragmentsPlaced(fragments, Height(scene), shadingPolicy)
      reads this
    {
      |target| == Height(scene) * Width(scene)
      && forall q {:trigger FragmentColor(math, scene.mainCamera.eyePosition, scene.lightSources, shadingPolicy, fragments[q])}
           | q in fragments && InFrame(fragments[q], Width(scene), Height(scene)) ::
           target[Offset(fragments[q].i, fragments[q].j, Height(scene), Width(scene))]
           == FragmentColor(math, scene.mainCamera.eyePosition, scene.lightSources, shadingPolicy, fragments[q])
    }

    /** `renderForDisplay`: the colour, fragment and depth maps cleared, the four passes run, and the
        frame buffer converted to bytes. The fragments are those of `Rendered`, and the render fails,
        out of range, exactly when one of them lies outside the image. */
    method RenderForDisplay() returns (r: Result<Matrix<Mat<byte>>>)
      requires Valid() && SceneReady(scene, math)
      modifies this`m, this`processedVertexPositions, this`dividedVertexPositions, this`vertexColors, this`faceColors
      modifies this`fragments, this`zBuffer, frameBuffer
      ensures Valid()
      ensures shadingPolicy == old(shadingPolicy)
      ensures Buffers(fragments, zBuffer) == Rendered(scene, math, shadingPolicy)
      ensures FragmentsPlaced(fragments, Height(scene), shadingPolicy)
      ensures r.Ok? <==> AllInFrame(fragments, Width(scene), Height(scene))
      ensures r.Err? ==> r.error == OutOfRange
      ensures r.Ok? ==> fresh(r.value) && r.value.Value() == Converted(Resolved(math, scene, shadingPolicy, fragments))
    {
      RenderPasses();
      RenderedPlaced(scene, math, shadingPolicy);
      var shaded := FragmentShading();
      if shaded.Err? {
        return Err(shaded.error);
      }
      var image := ConvertFloatImage2Int(frameBuffer.Value());
      r := Ok(image);
    }

    /** The first part of `renderForDisplay`: the colour, fragment and depth maps cleared, then
        `prepareMatrices`, `processVertices` and `rasterize`. The position maps are not cleared,
        but every render overwrites all their entries, so the buffers are those of `Rendered`. */
    method RenderPasses()
      requires Valid() && SceneReady(scene, math)
      modifies this`m, this`processedVertexPositions, this`dividedVertexPositions, this`vertexColors, this`faceColors
      modifies this`fragments, this`zBuffer
      ensures Valid()
      ensures Buffers(fragments, zBuffer) == Rendered(scene, math, shadingPolicy)
    {
      vertexColors := map[];
      faceColors := map[];
      fragments := map[];
      zBuffer := map[];
      PrepareMatrices();
      ProcessVertices();
      UnionCovered(old(processedVertexPositions), ProcessedMap(scene, m));
      ProcessedCaches(scene, math, shadingPolicy, dividedVertexPositions, vertexColors, faceColors);
      Rasterize();
    }
  }

  /** The pixel whose fragment lands in cell k of a width x height frame buffer (row-major). */
  function CellKey(k: int, width: int, height: int): Pixel
    requires width > 0
  {
    (k % width, height - k / width)
  }

  /** Cell k is the cell (i, j) exactly when its pixel is the pixel of that cell. */
  lemma CellOfKey(i: int, j: int, width: int, height: int, k: int)
    requires 0 <= i < height && 0 <= j < width && 0 <= k < height * width
    ensures k == i * width + j <==> CellKey(k, width, height) == (j, height - i)
  {
    OffsetSplits(i, j, width);
    if CellKey(k, width, height) == (j, height - i) {
      assert k == (k / width) * width + k % width;
    }
  }

  /** The resolved image holds, at the cell of every fragment inside the image, the fragment's
      colour, and black at every cell whose pixel has no fragment. */
  lemma ResolvedCells(math: Math, scene: Scene, policy: int, fragments: map<Pixel, Fragment>)
    requires IsVector3(scene.mainCamera.eyePosition) && LightsReady(scene.lightSources)
    requires Width(scene) > 0 && Height(scene) > 0 && FragmentsPlaced(fragments, Height(scene), policy)
    ensures forall q {:trigger FragmentColor(math, scene.mainCamera.eyePosition, scene.lightSources, policy, fragments[q])}
              | q in fragments && InFrame(fragments[q], Width(scene), Height(scene)) ::
              Resolved(math, scene, policy, fragments).data[Offset(fragments[q].i, fragments[q].j, Height(scene), Width(scene))]
              == FragmentColor(math, scene.mainCamera.eyePosition, scene.lightSources, policy, fragments[q])
    ensures forall k | 0 <= k < Height(scene) * Width(scene) && CellKey(k, Width(scene), Height(scene)) !in fragments ::
              Resolved(math, scene, policy, fragments).data[k] == Black()
  {
    var w, h := Width(scene), Height(scene);
    var image := Resolved(math, scene, policy, fragments);
    forall q | q in fragments && InFrame(fragments[q], w, h)
      ensures image.data[Offset(fragments[q].i, fragments[q].j, h, w)]
              == FragmentColor(math, scene.mainCamera.eyePosition, scene.lightSources, policy, fragments[q])
    {
      var i, j := fragments[q].i, fragments[q].j;
      var k := Offset(i, j, h, w);
      OffsetSplits(i, j, w);
      assert CellColor(math, scene, policy, fragments, k / w, k % w)
             == FragmentColor(math, scene.mainCamera.eyePosition, scene.lightSources, policy, fragments[q]);
    }
  }
}
