/** What the renderer reads from its scene (Scene.h, Camera.h, LightSource.h, Surface.h): a camera,
    the light sources and the surfaces, each a mesh with its material. These are plain values for
    the whole render. The module also holds the two pure computations of Renderer.cpp that every
    pass shares: the composite model-to-screen matrix of `prepareMatrices`, and the lighting
    function `shading`. */
module Scenes {
  import opened Matrices
  import opened MeshTypes
  import opened MeshWalks
  import opened MeshNormals
  import opened Utils

  /** `Camera`: eye, look-at point, up direction, vertical field of view in degrees, image size
      (width, height) and the near and far depths. */
  datatype Camera = Camera(eyePosition: Mat<real>, lookAtPosition: Mat<real>, upDirection: Mat<real>,
                           angle: real, imageSize: (int, int), depths: (real, real))

  /** `LightSource`: a position and an RGB intensity. */
  datatype LightSource = LightSource(position: Mat<real>, intensity: Mat<real>)

  /** `SurfaceColorSettings`: ambient, diffuse and specular RGB coefficients and the Phong
      exponent. */
  datatype ColorSettings = ColorSettings(kAmbient: Mat<real>, kDiffuse: Mat<real>, kSpecular: Mat<real>,
                                         phongExponent: real)

  /** `Surface`: the pointer structure of its `TriMesh` and its colour settings. */
  datatype Surface = Surface(mesh: Links, colorSettings: ColorSettings)

  /** `Scene`: the surfaces, the main camera and the light sources. */
  datatype Scene = Scene(objects: seq<Surface>, mainCamera: Camera, lightSources: seq<LightSource>)

  /** A vertex or a face of the scene: the surface's place in `objects` and the record's index in
      that surface's arena. It stands for the `shared_ptr` the renderer's maps are keyed by. */
  type VertexKey = (int, int)
  type FaceKey = (int, int)

  function Width(scene: Scene): int {
    scene.mainCamera.imageSize.0
  }

  function Height(scene: Scene): int {
    scene.mainCamera.imageSize.1
  }

  // ---------------------------------------------------------------------
  // What the renderer needs of its scene

  /** Every colour coefficient is a 3-vector. */
  predicate SettingsReady(cs: ColorSettings) {
    IsVector3(cs.kAmbient) && IsVector3(cs.kDiffuse) && IsVector3(cs.kSpecular)
  }

  predicate LightsReady(lights: seq<LightSource>) {
    forall l | 0 <= l < |lights| :: IsVector3(lights[l].position) && IsVector3(lights[l].intensity)
  }

  /** A mesh as the `TriMesh` constructor leaves it: the corners of every listed face can be read,
      and every vertex and every listed face has its normal (and the face its centre) computed. */
  predicate MeshReady(s: Links) {
    FacesReady(s)
    && (forall v | 0 <= v < |s.vertices| :: s.vertices[v].normal.Some? && IsVector3(s.vertices[v].normal.value))
    && forall j | 0 <= j < |s.faces| ::
         var face := s.faceArena[s.faces[j]];
         face.normal.Some? && IsVector3(face.normal.value) && face.position.Some? && IsVector3(face.position.value)
  }

  predicate ObjectsReady(objects: seq<Surface>) {
    forall o | 0 <= o < |objects| :: MeshReady(objects[o].mesh) && SettingsReady(objects[o].colorSettings)
  }

  /** A vertex of some surface. */
  predicate IsVertexKey(scene: Scene, k: VertexKey) {
    0 <= k.0 < |scene.objects| && 0 <= k.1 < |scene.objects[k.0].mesh.vertices|
  }

  /** A face of some surface's face list. */
  predicate IsFaceKey(scene: Scene, k: FaceKey) {
    0 <= k.0 < |scene.objects| && 0 <= k.1 < |scene.objects[k.0].mesh.faceArena|
    && k.1 in scene.objects[k.0].mesh.faces
  }

  function VertexKeys(scene: Scene): (keys: set<VertexKey>)
    ensures forall k: VertexKey :: k in keys <==> IsVertexKey(scene, k)
  {
    set o, v | 0 <= o < |scene.objects| && 0 <= v < |scene.objects[o].mesh.vertices| :: (o, v)
  }

  function FaceKeys(scene: Scene): (keys: set<FaceKey>)
    ensures forall k: FaceKey :: k in keys <==> IsFaceKey(scene, k)
  {
    set o, f | 0 <= o < |scene.objects| && 0 <= f < |scene.objects[o].mesh.faceArena|
                 && f in scene.objects[o].mesh.faces :: (o, f)
  }

  function VertexOf(scene: Scene, k: VertexKey): Vertex
    requires IsVertexKey(scene, k)
  {
    scene.objects[k.0].mesh.vertices[k.1]
  }

  function FaceOf(scene: Scene, k: FaceKey): Face
    requires IsFaceKey(scene, k)
  {
    scene.objects[k.0].mesh.faceArena[k.1]
  }

  // ---------------------------------------------------------------------
  // prepareMatrices

  function Abs(x: real): real {
    if x < 0.0 then -x else x
  }

  /** Half the field of view, in radians. */
  function HalfAngle(c: Camera, math: Math): real {
    c.angle * math.pi / 360.0
  }

  /** `t = tan(angle * pi / 360) * |n|`: half the height of the near plane. */
  function FrustumTop(c: Camera, math: Math): real {
    math.tan(HalfAngle(c, math)) * Abs(c.depths.0)
  }

  /** `r = t * width / height`. */
  function FrustumRight(c: Camera, math: Math): real
    requires c.imageSize.1 != 0
  {
    FrustumTop(c, math) * c.imageSize.0 as real / c.imageSize.1 as real
  }

  /** The camera's vectors are 3-vectors, its image has pixels, and its frustum has nonzero width,
      height and depth (otherwise the perspective matrix divides by zero). */
  predicate CameraReady(c: Camera, math: Math) {
    IsVector3(c.eyePosition) && IsVector3(c.lookAtPosition) && IsVector3(c.upDirection)
    && c.imageSize.0 > 0 && c.imageSize.1 > 0
    && FrustumDefined(c.depths.0, c.depths.1, -FrustumTop(c, math), FrustumTop(c, math),
                      -FrustumRight(c, math), FrustumRight(c, math))
  }

  /** The camera basis: `u = normalize(look x up)`, `v = normalize(u x look)`,
      `w = normalize(u x v)`, with `look = lookAt - eye`. */
  function Basis(c: Camera, math: Math): (uvw: (Mat<real>, Mat<real>, Mat<real>))
    requires IsVector3(c.eyePosition) && IsVector3(c.lookAtPosition) && IsVector3(c.upDirection)
    ensures IsVector3(uvw.0) && IsVector3(uvw.1) && IsVector3(uvw.2)
  {
    var look := Elementwise(c.lookAtPosition, c.eyePosition, Minus);
    var u := Normalized(math, Cross(look, c.upDirection).value);
    var v := Normalized(math, Cross(u, look).value);
    var w := Normalized(math, Cross(u, v).value);
    (u, v, w)
  }

  /** `mCam = make3dChangeCoordSysMatrix(u, v, w) * make3dTranslateMatrix(eye)`. */
  function ViewMatrix(c: Camera, math: Math): (m: Mat<real>)
    requires IsVector3(c.eyePosition) && IsVector3(c.lookAtPosition) && IsVector3(c.upDirection)
    ensures IsMatrix4(m)
  {
    var (u, v, w) := Basis(c, math);
    Product(ChangeCoordSys(u, v, w), TranslateMatrix(c.eyePosition)).value
  }

  /** `mPer = makePerspectiveProjectionMatrix(n, f, -t, t, -r, r)`. */
  function PerspectiveMatrix(c: Camera, math: Math): (m: Mat<real>)
    requires CameraReady(c, math)
    ensures IsMatrix4(m)
  {
    var t, r := FrustumTop(c, math), FrustumRight(c, math);
    Perspective(c.depths.0, c.depths.1, -t, t, -r, r)
  }

  /** `m = mVp * mPer * mCam`, the product taken left to right as C++ groups it. */
  function Composite(c: Camera, math: Math): (m: Mat<real>)
    requires CameraReady(c, math)
    ensures IsMatrix4(m)
  {
    var vpPer := Product(Viewport(c.imageSize.0, c.imageSize.1), PerspectiveMatrix(c, math)).value;
    Product(vpPer, ViewMatrix(c, math)).value
  }

  /** The composite matrix applies the translation, the change of basis, the perspective and the
      viewport in that order: the grouping of the product does not change the map. */
  lemma CompositeApplies(c: Camera, math: Math, p: Mat<real>)
    requires CameraReady(c, math) && IsVector4(p)
    ensures Apply(Composite(c, math), p)
            == Apply(Viewport(c.imageSize.0, c.imageSize.1),
                     Apply(PerspectiveMatrix(c, math),
                           Apply(ChangeCoordSys(Basis(c, math).0, Basis(c, math).1, Basis(c, math).2),
                                 Apply(TranslateMatrix(c.eyePosition), p))))
  {
    var (u, v, w) := Basis(c, math);
    var vp, per := Viewport(c.imageSize.0, c.imageSize.1), PerspectiveMatrix(c, math);
    var cc, tr := ChangeCoordSys(u, v, w), TranslateMatrix(c.eyePosition);
    ApplyComposes(vp, per, Apply(ViewMatrix(c, math), p));
    ApplyComposes(Product(vp, per).value, ViewMatrix(c, math), p);
    ApplyComposes(cc, tr, p);
  }

  /** The fourth coordinate of a transformed point is its depth along the camera's w axis,
      `w . (p - eye)`: the homogeneous divide that follows is defined exactly for points off the
      plane through the eye spanned by u and v. */
  lemma CompositeDepth(c: Camera, math: Math, p: Mat<real>)
    requires CameraReady(c, math) && IsVector3(p)
    ensures Apply(Composite(c, math), Lift(p)).data[3]
            == Dot(Basis(c, math).2, Elementwise(p, c.eyePosition, Minus)).value
  {
    var (u, v, w) := Basis(c, math);
    var q := Elementwise(p, c.eyePosition, Minus);
    CompositeApplies(c, math, Lift(p));
    TranslateMaps(c.eyePosition, p);
    ChangeCoordSysMaps(u, v, w, q);
    var camera := Apply(ChangeCoordSys(u, v, w), Apply(TranslateMatrix(c.eyePosition), Lift(p)));
    assert camera.data[2] == Dot(w, q).value;
    PerspectiveKeepsDepthInW(c.depths.0, c.depths.1, -FrustumTop(c, math), FrustumTop(c, math),
                             -FrustumRight(c, math), FrustumRight(c, math), camera);
    var projected := Apply(PerspectiveMatrix(c, math), camera);
    var vp := Viewport(c.imageSize.0, c.imageSize.1);
    assert Apply(vp, projected).data[3]
           == 0.0 * projected.data[0] + 0.0 * projected.data[1] + 0.0 * projected.data[2] + 1.0 * projected.data[3];
  }

  // ---------------------------------------------------------------------
  // shading

  /** `ColorRGB32f({0.5f, 0.5f, 0.5f})`. */
  const Gray: Mat<real> := Vector3(0.5, 0.5, 0.5)

  /** `ColorRGB32f result(0.f); result += kAmbient.cwiseProduct(gray)`. */
  function Ambient(cs: ColorSettings): (c: Mat<real>)
    requires SettingsReady(cs)
    ensures IsVector3(c)
  {
    Elementwise(Zero3, Elementwise(cs.kAmbient, Gray, Times), Plus)
  }

  /** `normalize(light - position)`. */
  function LightDirection(math: Math, position: Mat<real>, light: LightSource): (d: Mat<real>)
    requires IsVector3(position) && IsVector3(light.position)
    ensures IsVector3(d)
  {
    Normalized(math, Elementwise(light.position, position, Minus))
  }

  /** `normal . lightDirection`, used unclamped. */
  function DiffuseAngle(math: Math, position: Mat<real>, normal: Mat<real>, light: LightSource): real
    requires IsVector3(position) && IsVector3(normal) && IsVector3(light.position)
  {
    Dot(normal, LightDirection(math, position, light)).value
  }

  /** `normal . normalize(lightDirection + normalize(eye - position))`. */
  function SpecularAngle(math: Math, eye: Mat<real>, position: Mat<real>, normal: Mat<real>, light: LightSource): real
    requires IsVector3(eye) && IsVector3(position) && IsVector3(normal) && IsVector3(light.position)
  {
    var cameraDirection := Normalized(math, Elementwise(eye, position, Minus));
    var h := Normalized(math, Elementwise(LightDirection(math, position, light), cameraDirection, Plus));
    Dot(normal, h).value
  }

  /** One iteration of the loop over the lights: the diffuse term, then the specular term, each
      added to the running colour. */
  function AddLight(math: Math, eye: Mat<real>, position: Mat<real>, normal: Mat<real>, light: LightSource,
                    cs: ColorSettings, acc: Mat<real>): (r: Mat<real>)
    requires IsVector3(eye) && IsVector3(position) && IsVector3(normal)
    requires IsVector3(light.position) && IsVector3(light.intensity) && SettingsReady(cs) && IsVector3(acc)
    ensures IsVector3(r)
  {
    var diffuse := ScalarMap(Elementwise(cs.kDiffuse, light.intensity, Times),
                             DiffuseAngle(math, position, normal, light), ScaleBy);
    var withDiffuse := Elementwise(acc, diffuse, Plus);
    var specular := ScalarMap(Elementwise(cs.kSpecular, light.intensity, Times),
                              math.pow(SpecularAngle(math, eye, position, normal, light), cs.phongExponent), ScaleBy);
    Elementwise(withDiffuse, specular, Plus)
  }

  /** The colour after the first n lights. */
  function ShadeLights(math: Math, eye: Mat<real>, position: Mat<real>, normal: Mat<real>,
                       lights: seq<LightSource>, cs: ColorSettings, n: nat): (r: Mat<real>)
    requires IsVector3(eye) && IsVector3(position) && IsVector3(normal)
    requires LightsReady(lights) && SettingsReady(cs) && n <= |lights|
    ensures IsVector3(r)
  {
    if n == 0 then Ambient(cs)
    else AddLight(math, eye, position, normal, lights[n - 1], cs,
                  ShadeLights(math, eye, position, normal, lights, cs, n - 1))
  }

  /** `shading(position, normal, lights, colorSettings)`, with `eye` the main camera's eye. */
  function Shaded(math: Math, eye: Mat<real>, position: Mat<real>, normal: Mat<real>,
                  lights: seq<LightSource>, cs: ColorSettings): (r: Mat<real>)
    requires IsVector3(eye) && IsVector3(position) && IsVector3(normal)
    requires LightsReady(lights) && SettingsReady(cs)
    ensures IsVector3(r)
  {
    ShadeLights(math, eye, position, normal, lights, cs, |lights|)
  }

  /** `shading` as the source runs it: the ambient term, then a loop adding each light's terms. */
  method Shade(math: Math, eye: Mat<real>, position: Mat<real>, normal: Mat<real>,
               lights: seq<LightSource>, cs: ColorSettings) returns (result: Mat<real>)
    requires IsVector3(eye) && IsVector3(position) && IsVector3(normal)
    requires LightsReady(lights) && SettingsReady(cs)
    ensures result == Shaded(math, eye, position, normal, lights, cs)
  {
    result := Zero3;
    result := Elementwise(result, Elementwise(cs.kAmbient, Gray, Times), Plus);
    for l := 0 to |lights|
      invariant result == ShadeLights(math, eye, position, normal, lights, cs, l)
    {
      var light := lights[l];
      var lightDirection := Normalized(math, Elementwise(light.position, position, Minus));
      var diffuseAngle := Dot(normal, lightDirection).value;
      result := Elementwise(result, ScalarMap(Elementwise(cs.kDiffuse, light.intensity, Times), diffuseAngle, ScaleBy), Plus);
      var cameraDirection := Normalized(math, Elementwise(eye, position, Minus));
      var h := Normalized(math, Elementwise(lightDirection, cameraDirection, Plus));
      var specularAngle := Dot(normal, h).value;
      result := Elementwise(result, ScalarMap(Elementwise(cs.kSpecular, light.intensity, Times),
                                              math.pow(specularAngle, cs.phongExponent), ScaleBy), Plus);
    }
  }

  /** With no lights the colour is the ambient coefficient times half-intensity gray. */
  lemma ShadingWithoutLights(math: Math, eye: Mat<real>, position: Mat<real>, normal: Mat<real>, cs: ColorSettings)
    requires IsVector3(eye) && IsVector3(position) && IsVector3(normal) && SettingsReady(cs)
    ensures Shaded(math, eye, position, normal, [], cs)
            == Vector3(0.5 * cs.kAmbient.data[0], 0.5 * cs.kAmbient.data[1], 0.5 * cs.kAmbient.data[2])
  {
    Elementwise3(cs.kAmbient, Gray, Times);
    Elementwise3(Zero3, Elementwise(cs.kAmbient, Gray, Times), Plus);
  }

  /** Channel k of one light's step: the running colour plus the diffuse and specular terms. */
  lemma AddLightChannel(math: Math, eye: Mat<real>, position: Mat<real>, normal: Mat<real>, light: LightSource,
                        cs: ColorSettings, acc: Mat<real>, k: nat)
    requires IsVector3(eye) && IsVector3(position) && IsVector3(normal)
    requires IsVector3(light.position) && IsVector3(light.intensity) && SettingsReady(cs) && IsVector3(acc) && k < 3
    ensures AddLight(math, eye, position, normal, light, cs, acc).data[k]
            == acc.data[k]
               + cs.kDiffuse.data[k] * light.intensity.data[k] * DiffuseAngle(math, position, normal, light)
               + cs.kSpecular.data[k] * light.intensity.data[k]
                 * math.pow(SpecularAngle(math, eye, position, normal, light), cs.phongExponent)
  {
    LightTermsChannel(acc, cs.kDiffuse, cs.kSpecular, light.intensity, DiffuseAngle(math, position, normal, light),
                      math.pow(SpecularAngle(math, eye, position, normal, light), cs.phongExponent), k);
  }

  lemma LightTermsChannel(acc: Mat<real>, kd: Mat<real>, ks: Mat<real>, intensity: Mat<real>, d: real, s: real, k: nat)
    requires IsVector3(acc) && IsVector3(kd) && IsVector3(ks) && IsVector3(intensity) && k < 3
    ensures Elementwise(Elementwise(acc, ScalarMap(Elementwise(kd, intensity, Times), d, ScaleBy), Plus),
                        ScalarMap(Elementwise(ks, intensity, Times), s, ScaleBy), Plus).data[k]
            == acc.data[k] + kd.data[k] * intensity.data[k] * d + ks.data[k] * intensity.data[k] * s
  {
  }

  /** Each light adds, channel by channel, its diffuse coefficient times its intensity times the
      diffuse angle, plus its specular coefficient times its intensity times the specular angle
      raised to the exponent. */
  lemma ShadingAddsLight(math: Math, eye: Mat<real>, position: Mat<real>, normal: Mat<real>,
                         lights: seq<LightSource>, light: LightSource, cs: ColorSettings, k: nat)
    requires IsVector3(eye) && IsVector3(position) && IsVector3(normal)
    requires LightsReady(lights) && IsVector3(light.position) && IsVector3(light.intensity)
    requires SettingsReady(cs) && k < 3
    ensures LightsReady(lights + [light])
    ensures Shaded(math, eye, position, normal, lights + [light], cs).data[k]
            == Shaded(math, eye, position, normal, lights, cs).data[k]
               + cs.kDiffuse.data[k] * light.intensity.data[k] * DiffuseAngle(math, position, normal, light)
               + cs.kSpecular.data[k] * light.intensity.data[k]
                 * math.pow(SpecularAngle(math, eye, position, normal, light), cs.phongExponent)
  {
    var ls := lights + [light];
    assert forall l | 0 <= l < |lights| :: ls[l] == lights[l];
    ShadeLightsPrefix(math, eye, position, normal, lights, ls, cs, |lights|);
    AddLightChannel(math, eye, position, normal, light, cs, Shaded(math, eye, position, normal, lights, cs), k);
  }

  /** The fold over a list agrees with the fold over any list that starts with the same lights. */
  lemma {:induction false} ShadeLightsPrefix(math: Math, eye: Mat<real>, position: Mat<real>, normal: Mat<real>,
                                             lights: seq<LightSource>, longer: seq<LightSource>, cs: ColorSettings, n: nat)
    requires IsVector3(eye) && IsVector3(position) && IsVector3(normal)
    requires LightsReady(lights) && LightsReady(longer) && SettingsReady(cs)
    requires n <= |lights| <= |longer| && forall l | 0 <= l < n :: longer[l] == lights[l]
    ensures ShadeLights(math, eye, position, normal, longer, cs, n) == ShadeLights(math, eye, position, normal, lights, cs, n)
  {
    if n > 0 {
      ShadeLightsPrefix(math, eye, position, normal, lights, longer, cs, n - 1);
    }
  }

  /** The diffuse term is not clamped: a light behind the surface (negative diffuse angle) with no
      specular contribution lowers every channel its diffuse coefficient and intensity light. */
  lemma LightBehindDarkens(math: Math, eye: Mat<real>, position: Mat<real>, normal: Mat<real>,
                           light: LightSource, cs: ColorSettings, acc: Mat<real>, k: nat)
    requires IsVector3(eye) && IsVector3(position) && IsVector3(normal)
    requires IsVector3(light.position) && IsVector3(light.intensity) && SettingsReady(cs) && IsVector3(acc) && k < 3
    requires DiffuseAngle(math, position, normal, light) < 0.0
    requires cs.kDiffuse.data[k] * light.intensity.data[k] > 0.0 && cs.kSpecular.data[k] == 0.0
    ensures AddLight(math, eye, position, normal, light, cs, acc).data[k] < acc.data[k]
  {
    AddLightChannel(math, eye, position, normal, light, cs, acc, k);
    DarkerBy(AddLight(math, eye, position, normal, light, cs, acc).data[k], acc.data[k],
             cs.kDiffuse.data[k], light.intensity.data[k], DiffuseAngle(math, position, normal, light),
             cs.kSpecular.data[k], math.pow(SpecularAngle(math, eye, position, normal, light), cs.phongExponent));
  }

  lemma DarkerBy(after: real, before: real, kd: real, i: real, d: real, ks: real, s: real)
    requires after == before + kd * i * d + ks * i * s
    requires kd * i > 0.0 && d < 0.0 && ks == 0.0
    ensures after < before
  {
    assert (kd * i) * d < 0.0;
  }

  // ---------------------------------------------------------------------
  // processVertices

  /** `processedVertexPositions` for every vertex of the scene: m times the lifted position. */
  function ProcessedMap(scene: Scene, m: Mat<real>): (r: map<VertexKey, Mat<real>>)
    requires ObjectsReady(scene.objects) && IsMatrix4(m)
    ensures r.Keys == VertexKeys(scene)
    ensures forall k | k in r :: IsVector4(r[k])
  {
    map k | k in VertexKeys(scene) :: Apply(m, Lift(VertexOf(scene, k).position))
  }

  /** The colour of a vertex: its surface's settings shaded at its position and normal. */
  function VertexColor(math: Math, scene: Scene, k: VertexKey): (c: Mat<real>)
    requires IsVector3(scene.mainCamera.eyePosition) && ObjectsReady(scene.objects) && LightsReady(scene.lightSources)
    requires IsVertexKey(scene, k)
    ensures IsVector3(c)
  {
    var vertex := VertexOf(scene, k);
    Shaded(math, scene.mainCamera.eyePosition, vertex.position, vertex.normal.value, scene.lightSources,
           scene.objects[k.0].colorSettings)
  }

  /** The colour of a face: its surface's settings shaded at its centre and normal. */
  function FaceColor(math: Math, scene: Scene, k: FaceKey): (c: Mat<real>)
    requires IsVector3(scene.mainCamera.eyePosition) && ObjectsReady(scene.objects) && LightsReady(scene.lightSources)
    requires IsFaceKey(scene, k)
    ensures IsVector3(c)
  {
    var face := FaceOf(scene, k);
    Shaded(math, scene.mainCamera.eyePosition, face.position.value, face.normal.value, scene.lightSources,
           scene.objects[k.0].colorSettings)
  }

  /** `vertexColors` for every vertex of the scene. */
  function VertexColorMap(math: Math, scene: Scene): (r: map<VertexKey, Mat<real>>)
    requires IsVector3(scene.mainCamera.eyePosition) && ObjectsReady(scene.objects) && LightsReady(scene.lightSources)
    ensures r.Keys == VertexKeys(scene)
    ensures forall k | k in r :: IsVector3(r[k])
  {
    map k | k in VertexKeys(scene) :: VertexColor(math, scene, k)
  }

  /** `faceColors` for every listed face of the scene. */
  function FaceColorMap(math: Math, scene: Scene): (r: map<FaceKey, Mat<real>>)
    requires IsVector3(scene.mainCamera.eyePosition) && ObjectsReady(scene.objects) && LightsReady(scene.lightSources)
    ensures r.Keys == FaceKeys(scene)
    ensures forall k | k in r :: IsVector3(r[k])
  {
    map k | k in FaceKeys(scene) :: FaceColor(math, scene, k)
  }
}
